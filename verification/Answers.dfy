/**
 How the handlers hear from the server: every call ends in an arbitrary response, from the
 server or from anything that stands before it, and goes through the classification of
 PveClient. What is assumed of responses is only this: a complete success, and a complete 400
 or 500 that speaks of a missing or an existing object, tell the truth. All others may say
 what they like, and no handler takes them for an answer.
 */
module Answers {
  import opened Wrappers
  import PveClient
  import Text

  type Response = PveClient.Response

  function Success(): Response {
    PveClient.Response(200, "", false, PveClient.NotJson)
  }

  function Refusal(phrase: string): Response {
    PveClient.Response(500, phrase, false, PveClient.NotJson)
  }

  lemma SuccessSucceeds()
    ensures PveClient.Success(Success()) && !PveClient.SaysNoSuchUser(Success()) && !PveClient.SaysConflict(Success())
  {
  }

  lemma NoSuchUserDenies()
    ensures PveClient.DeniesUser(Refusal("no such user")) && !PveClient.Success(Refusal("no such user"))
  {
    PveClient.UserNotFoundExactly(Refusal("no such user"));
    PveClient.SmallLetters("no such user");
    PveClient.NoRoom("no such user", "already exists");
    assert Text.Contains("no such user", "no such user") by {
      assert Text.At("no such user", "no such user", 0);
    }
    hide Text.Contains, PveClient.Lower;
    assert PveClient.SaysNoSuchUser(Refusal("no such user"));
  }

  lemma AlreadyExistsConflicts()
    ensures PveClient.SaysConflict(Refusal("already exists")) && !PveClient.Success(Refusal("already exists"))
  {
    PveClient.SmallLetters("already exists");
    assert Text.Contains("already exists", "already exists") by {
      assert Text.At("already exists", "already exists", 0);
    }
    hide Text.Contains, PveClient.Lower;
  }

  /** A response to a delete, after which the user is absent or not. */
  predicate TrueOfDelete(r: Response, absent: bool) {
    PveClient.Success(r) || PveClient.DeniesUser(r) ==> absent
  }

  /** DeleteUser: nil and "user not found" both mean that the user is gone. */
  method Deleted(absent: bool, calm: bool) returns (gone: bool)
    ensures gone ==> absent
    ensures calm && absent ==> gone
  {
    var r: Response := *;
    if calm {
      r := if absent then Success() else PveClient.NoResponse;
      SuccessSucceeds();
    } else if !TrueOfDelete(r, absent) {
      r := PveClient.NoResponse;
    }
    hide PveClient.Success, PveClient.DeniesUser;
    var e := PveClient.DeleteUser(r);
    gone := e.None? || e == Some(PveClient.UserNotFound);
  }

  datatype Lookup<U> = Found(user: U) | Absent | LookupFault

  predicate TrueOfRead<U(==)>(r: Response, parsed: Option<U>, user: Option<U>) {
    && (PveClient.Success(r) && parsed.Some? ==> parsed == user)
    && (PveClient.DeniesUser(r) ==> user.None?)
  }

  /** GetUser, when the server holds this user or none. */
  method Read<U(==)>(user: Option<U>, calm: bool) returns (l: Lookup<U>)
    ensures l.Found? ==> user == Some(l.user)
    ensures l.Absent? ==> user.None?
    ensures calm ==> !l.LookupFault?
  {
    var r: Response, parsed: Option<U> := *, *;
    if calm {
      r, parsed := if user.Some? then Success() else Refusal("no such user"), user;
      SuccessSucceeds();
      NoSuchUserDenies();
    } else if !TrueOfRead(r, parsed, user) {
      r := PveClient.NoResponse;
    }
    hide PveClient.Success, PveClient.DeniesUser;
    var found, e := PveClient.GetUser(r, parsed);
    if found.Some? {
      return Found(found.value);
    }
    return if e == Some(PveClient.UserNotFound) then Absent else LookupFault;
  }

  datatype Creation = CreatedUser | Conflict | CreateFault

  predicate TrueOfCreate(r: Response, created: bool) {
    && (PveClient.Success(r) ==> created)
    && (PveClient.SaysConflict(r) ==> !created)
  }

  /** CreateUser, when this call created the user or did not. */
  method Created(created: bool, calm: bool) returns (c: Creation)
    ensures c.CreatedUser? ==> created
    ensures c.Conflict? ==> !created
    ensures calm ==> c == if created then CreatedUser else Conflict
  {
    var r: Response := *;
    if calm {
      r := if created then Success() else Refusal("already exists");
      SuccessSucceeds();
      AlreadyExistsConflicts();
    } else if !TrueOfCreate(r, created) {
      r := PveClient.NoResponse;
    }
    hide PveClient.Success, PveClient.SaysConflict;
    var e := PveClient.DoRequest(r, false);
    c := if e.None? then CreatedUser else if e == Some(PveClient.Conflict) then Conflict else CreateFault;
  }

  /** UpdateUser, when the update was applied or not. */
  method Updated(applied: bool, calm: bool) returns (ok: bool)
    ensures ok ==> applied
    ensures calm && applied ==> ok
  {
    var r: Response := *;
    if calm && applied {
      r := Success();
      SuccessSucceeds();
    } else if PveClient.Success(r) && !applied {
      r := PveClient.NoResponse;
    }
    hide PveClient.Success;
    var e := PveClient.DoRequest(r, false);
    ok := e.None?;
  }

  /** NoSuchToken is an error answer to a list of tokens, and still a true one. */
  datatype Exists = Yes | No | UserGone | NoSuchToken | ExistsFault

  predicate TrueOfList(r: Response, listed: Option<seq<string>>, token: string, live: bool) {
    && (PveClient.Success(r) && listed.Some? ==> (token in listed.value <==> live))
    && (PveClient.SaysNoSuchUser(r) || PveClient.SaysNoSuchToken(r) ==> !live)
  }

  lemma NoSuchTokenSaysSo()
    ensures PveClient.SaysNoSuchToken(Refusal("no such token")) && !PveClient.Success(Refusal("no such token"))
  {
    PveClient.SmallLetters("no such token");
    PveClient.NoRoom("no such token", "already exists");
    PveClient.NoRoom("no such token", "does not exist");
    OtherNouns();
    assert Text.Contains("no such token", "no such token") by {
      assert Text.At("no such token", "no such token", 0);
    }
    hide Text.Contains, PveClient.Lower;
  }

  lemma OtherNouns()
    ensures !Text.Contains("no such token", "no such user") && !Text.Contains("no such token", "no such group")
  {
    var t := "no such token";
    forall i | 0 <= i <= |t|
      ensures !Text.At(t, "no such user", i) && !Text.At(t, "no such group", i)
    {
      if i == 0 {
        assert t[0..12][8] == 't' && "no such user"[8] == 'u';
        assert t[0..13][8] == 't' && "no such group"[8] == 'g';
      } else if i == 1 {
        assert t[1..13][0] == 'o' && "no such user"[0] == 'n';
      }
    }
  }

  /** TokenExists, when the user has the token or not. Unless plain, an absent token may be denied by name. */
  method Listed(token: string, live: bool, calm: bool, plain: bool) returns (e: Exists)
    ensures e.Yes? ==> live
    ensures e.No? || e.UserGone? || e.NoSuchToken? ==> !live
    ensures calm ==> !e.ExistsFault?
    ensures calm && plain ==> e.Yes? || e.No? || e.UserGone?
  {
    var r: Response, listed: Option<seq<string>> := *, *;
    if calm {
      var odd: bool := *;
      r, listed := if odd && !plain && !live then Refusal("no such token") else Success(), Some(if live then [token] else []);
      SuccessSucceeds();
      NoSuchTokenSaysSo();
    } else if !TrueOfList(r, listed, token, live) {
      r := PveClient.NoResponse;
    }
    hide PveClient.Success, PveClient.SaysNoSuchUser, PveClient.SaysNoSuchToken;
    var found, error := PveClient.TokenExists(r, listed, token);
    match error {
      case None => return if found then Yes else No;
      case Some(error) =>
        return if error == PveClient.UserNotFound then UserGone
          else if error == PveClient.TokenNotFound then NoSuchToken else ExistsFault;
    }
  }
}

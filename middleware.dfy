/**
 * The two authentication middlewares (server/middleware/stAuth.js and
 * server/middleware/mentorAuth.js). Both pick a token by the same precedence: cookie, then an
 * `Authorization: Bearer` header (section 2.1 of RFC 6750), then `body.token`, then `query.token`.
 * The token is checked by `jwt.verify`, here the parameter `verify`; the id claim is chosen by
 * fallback. The empty string stands for an absent or falsy value throughout.
 */
module AuthMiddleware {
  import opened Common

  /** `s.split(" ")`: the pieces between single spaces, empty pieces included. */
  function Split(s: string): (r: seq<string>)
    ensures |r| >= 1
    ensures forall i :: 0 <= i < |r| ==> ' ' !in r[i]
  {
    if s == [] then [""]
    else if s[0] == ' ' then [""] + Split(s[1..])
    else
      var rest := Split(s[1..]);
      [[s[0]] + rest[0]] + rest[1..]
  }

  /** `parts.join(" ")`. */
  function Join(parts: seq<string>): string
    requires |parts| >= 1
  {
    if |parts| == 1 then parts[0] else parts[0] + " " + Join(parts[1..])
  }

  /** Splitting loses nothing: joining the pieces gives the header back. */
  lemma {:induction false} JoinSplit(s: string)
    ensures Join(Split(s)) == s
  {
    if s != [] {
      JoinSplit(s[1..]);
      var rest := Split(s[1..]);
      if s[0] == ' ' {
        assert Split(s)[1..] == rest;
        assert s == " " + s[1..];
      } else if |rest| == 1 {
        assert s == [s[0]] + rest[0];
      } else {
        var r := Split(s);
        assert r[1..] == rest[1..];
        assert Join(r) == [s[0]] + rest[0] + " " + Join(rest[1..]);
        assert s == [s[0]] + s[1..];
      }
    }
  }

  /** Pieces without spaces come back from a split of their join. */
  lemma {:induction false} SplitJoin(parts: seq<string>)
    requires |parts| >= 1
    requires forall i :: 0 <= i < |parts| ==> ' ' !in parts[i]
    ensures Split(Join(parts)) == parts
  {
    if |parts| == 1 {
      SplitWord(parts[0], []);
      assert parts[0] + [] == parts[0];
      assert Split([]) == [""];
      assert parts == [parts[0] + ""];
    } else {
      SplitJoin(parts[1..]);
      SplitWord(parts[0], " " + Join(parts[1..]));
      var j := Join(parts[1..]);
      assert Join(parts) == parts[0] + (" " + j);
      assert (" " + j)[0] == ' ' && (" " + j)[1..] == j;
      assert Split(" " + j) == [""] + parts[1..];
      assert parts[0] + "" == parts[0];
      assert parts == [parts[0]] + parts[1..];
    }
  }

  /** A space-free word in front glues onto the first piece. */
  lemma {:induction false} SplitWord(w: string, t: string)
    requires ' ' !in w
    ensures Split(w + t) == [w + Split(t)[0]] + Split(t)[1..]
  {
    if w != [] {
      SplitWord(w[1..], t);
      assert (w + t)[0] == w[0] && w[0] != ' ';
      assert (w + t)[1..] == w[1..] + t;
      var rest := Split(w[1..] + t);
      assert Split(w + t) == [[w[0]] + rest[0]] + rest[1..];
      assert rest[0] == w[1..] + Split(t)[0] && rest[1..] == Split(t)[1..];
      assert [w[0]] + (w[1..] + Split(t)[0]) == w + Split(t)[0];
    } else {
      assert w + t == t;
      assert Split(t) == [Split(t)[0]] + Split(t)[1..];
      assert w + Split(t)[0] == Split(t)[0];
    }
  }

  predicate StartsWith(s: string, prefix: string) {
    |prefix| <= |s| && s[..|prefix|] == prefix
  }

  /** `authHeader && authHeader.startsWith("Bearer ") ? authHeader.split(" ")[1] : null`. */
  function HeaderToken(authorization: string): string {
    if authorization != "" && StartsWith(authorization, "Bearer ") then
      var parts := Split(authorization);
      if |parts| > 1 then parts[1] else ""
    else ""
  }

  /** A `Bearer ` header whose token is followed by nothing or by a space yields exactly the token. */
  lemma BearerSplit(t: string, tail: string)
    requires ' ' !in t
    requires tail == [] || tail[0] == ' '
    ensures HeaderToken("Bearer " + t + tail) == t
  {
    var h := "Bearer " + t + tail;
    assert h[..7] == "Bearer ";
    assert h == "Bearer" + (" " + (t + tail));
    SplitWord("Bearer", " " + (t + tail));
    assert (" " + (t + tail))[1..] == t + tail;
    assert Split(" " + (t + tail)) == [""] + Split(t + tail);
    SplitWord(t, tail);
    assert Split(tail)[0] == "";
    assert t + "" == t;
  }

  /** An `Authorization: Bearer <token>` header yields exactly the token, and no other header yields one. */
  lemma BearerHeader(t: string, rest: string)
    requires ' ' !in t
    ensures HeaderToken("Bearer " + t) == t
    ensures HeaderToken("Bearer " + t + " " + rest) == t
  {
    BearerSplit(t, []);
    assert "Bearer " + t + [] == "Bearer " + t;
    BearerSplit(t, " " + rest);
    assert "Bearer " + t + (" " + rest) == "Bearer " + t + " " + rest;
  }

  lemma NonBearerHeader(authorization: string)
    requires !StartsWith(authorization, "Bearer ")
    ensures HeaderToken(authorization) == ""
  {
  }

  /** Where a request may carry its token. */
  datatype TokenSources = TokenSources(cookie: string, authorization: string, bodyToken: string, queryToken: string)

  function SelectToken(src: TokenSources): string {
    Or(src.cookie, Or(HeaderToken(src.authorization), Or(src.bodyToken, src.queryToken)))
  }

  /** The precedence of the token sources. */
  lemma SelectTokenPrecedence(src: TokenSources)
    ensures src.cookie != "" ==> SelectToken(src) == src.cookie
    ensures src.cookie == "" && HeaderToken(src.authorization) != "" ==>
      SelectToken(src) == HeaderToken(src.authorization)
    ensures src.cookie == "" && HeaderToken(src.authorization) == "" && src.bodyToken != "" ==>
      SelectToken(src) == src.bodyToken
    ensures src.cookie == "" && HeaderToken(src.authorization) == "" && src.bodyToken == "" ==>
      SelectToken(src) == src.queryToken
  {
  }

  /** The claims of a decoded token that the middlewares read. */
  datatype Claims = Claims(studentId: string, mentorId: string, id: string, userId: string)

  /** `tokenDecode?.studentId || tokenDecode?.id || tokenDecode?.userId`. */
  function StudentIdOf(c: Claims): string {
    Or(c.studentId, Or(c.id, c.userId))
  }

  /** `tokenDecode?.mentorId || tokenDecode?.id || tokenDecode?.userId`. */
  function MentorIdOf(c: Claims): string {
    Or(c.mentorId, Or(c.id, c.userId))
  }

  datatype AuthResult = Unauthorized | Authorized(id: Id)

  /** No token, a token `verify` refuses, or no id claim: 401. Otherwise the chosen id. */
  function Decide(token: string, verify: string -> Option<Claims>, idOf: Claims -> string): (r: AuthResult)
    ensures r.Authorized? ==> r.id != ""
  {
    if token == "" then Unauthorized
    else match verify(token)
      case None => Unauthorized
      case Some(c) => if idOf(c) == "" then Unauthorized else Authorized(idOf(c))
  }

  /** A token as the student controllers sign it (`{ studentId }`) is refused by the mentor middleware, and the other way round. */
  lemma TokensBoundToRole(sid: Id, mid: Id)
    ensures StudentIdOf(Claims(sid, "", "", "")) == sid
    ensures MentorIdOf(Claims(sid, "", "", "")) == ""
    ensures MentorIdOf(Claims("", mid, "", "")) == mid
    ensures StudentIdOf(Claims("", mid, "", "")) == ""
  {
  }

  /** A token carrying only the generic `id` claim is accepted by both middlewares, for the same id. */
  lemma GenericIdClaimServesBothRoles(id: Id)
    requires id != ""
    ensures StudentIdOf(Claims("", "", id, "")) == id && MentorIdOf(Claims("", "", id, "")) == id
  {
  }

  /** The request object as the middlewares see and change it. */
  class Request {
    var sources: TokenSources
    var bodyStId: string
    var stId: string
    var bodyMentorId: string
    var mentorId: string
    var nextCalled: bool

    constructor (sources: TokenSources)
      ensures this.sources == sources
      ensures bodyStId == "" && stId == "" && bodyMentorId == "" && mentorId == "" && !nextCalled
    {
      this.sources := sources;
      bodyStId, stId, bodyMentorId, mentorId := "", "", "", "";
      nextCalled := false;
    }
  }

  /** `stAuth`: on success `req.body.stId` and `req.stId` both get the id and `next` runs; a 401 changes nothing. */
  method StAuth(req: Request, verify: string -> Option<Claims>) returns (r: AuthResult)
    modifies req
    ensures r == Decide(SelectToken(old(req.sources)), verify, StudentIdOf)
    ensures req.sources == old(req.sources)
    ensures req.bodyMentorId == old(req.bodyMentorId) && req.mentorId == old(req.mentorId)
    ensures r.Unauthorized? ==>
              req.bodyStId == old(req.bodyStId) && req.stId == old(req.stId) && req.nextCalled == old(req.nextCalled)
    ensures r.Authorized? ==> req.bodyStId == r.id && req.stId == r.id && req.nextCalled
  {
    var token := SelectToken(req.sources);
    if token == "" {
      return Unauthorized;
    }
    var decoded := verify(token);
    if decoded.None? {
      return Unauthorized;
    }
    var studentId := StudentIdOf(decoded.value);
    if studentId == "" {
      return Unauthorized;
    }
    req.bodyStId := studentId;
    req.stId := studentId;
    req.nextCalled := true;
    r := Authorized(studentId);
  }

  /** `mentorAuth`: on success `req.body.mentorId` and `req.mentorId` both get the id and `next` runs. */
  method MentorAuth(req: Request, verify: string -> Option<Claims>) returns (r: AuthResult)
    modifies req
    ensures r == Decide(SelectToken(old(req.sources)), verify, MentorIdOf)
    ensures req.sources == old(req.sources)
    ensures req.bodyStId == old(req.bodyStId) && req.stId == old(req.stId)
    ensures r.Unauthorized? ==>
              && req.bodyMentorId == old(req.bodyMentorId) && req.mentorId == old(req.mentorId)
              && req.nextCalled == old(req.nextCalled)
    ensures r.Authorized? ==> req.bodyMentorId == r.id && req.mentorId == r.id && req.nextCalled
  {
    var token := SelectToken(req.sources);
    if token == "" {
      return Unauthorized;
    }
    var decoded := verify(token);
    if decoded.None? {
      return Unauthorized;
    }
    var mentorId := MentorIdOf(decoded.value);
    if mentorId == "" {
      return Unauthorized;
    }
    req.bodyMentorId := mentorId;
    req.mentorId := mentorId;
    req.nextCalled := true;
    r := Authorized(mentorId);
  }

  /** With no token anywhere the answer is 401, whatever `verify` would say. */
  lemma NoTokenUnauthorized(src: TokenSources, verify: string -> Option<Claims>)
    requires src.cookie == "" && src.bodyToken == "" && src.queryToken == ""
    requires !StartsWith(src.authorization, "Bearer ")
    ensures Decide(SelectToken(src), verify, StudentIdOf) == Unauthorized
    ensures Decide(SelectToken(src), verify, MentorIdOf) == Unauthorized
  {
    assert HeaderToken(src.authorization) == "";
    SelectTokenPrecedence(src);
  }
}

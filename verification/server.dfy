/** The request pipeline of src/server.ts: Basic authentication for every
    request, then per method the middleware and the handler, and the error
    handler for whatever reaches `next(err)`. */
module Server {
  import opened Base
  import opened Http
  import opened Routes
  import opened Middleware

  /** An entry of `config.credentials`: a user and the hex SHA-256 of the
      password. */
  datatype Credential = Credential(user: string, pwHash: string)

  /** Name and password decoded from an `Authorization: Basic` header. */
  datatype BasicAuth = BasicAuth(name: string, pass: string)

  /** The configuration the pipeline reads; `sha256Hex` stands for the
      hex SHA-256 digest of a password. */
  datatype Config = Config(credentials: seq<Credential>, sha256Hex: string -> string)

  datatype Method = Put | Get | Delete

  /** A request on the object route (bucket, then key path): its method
      (`verb`), the decoded credentials (`None` when the header is absent
      or not Basic), the bucket and key segments of the path, the
      `Content-MD5` header ("" when absent), the body and the `version`
      query parameter. */
  datatype HttpRequest = HttpRequest(
    verb: Method, auth: Option<BasicAuth>, bucket: string, segments: seq<string>,
    contentMd5: string, body: seq<Byte>, version: VersionQuery)

  /** The backend afterwards and the response the client gets. */
  datatype Served = Served(backend: Backend, response: Response)

  const Unauthorized: string := "Unauthorized"

  /** `config.credentials.find(cred => cred.user === name)`: the first
      entry for the user. */
  function FindCredential(creds: seq<Credential>, name: string): (r: Option<Credential>)
    ensures r.None? <==> forall i :: 0 <= i < |creds| ==> creds[i].user != name
    ensures r.Some? ==> exists i :: 0 <= i < |creds| && creds[i] == r.value && r.value.user == name
                          && forall j :: 0 <= j < i ==> creds[j].user != name
    decreases |creds|
  {
    if |creds| == 0 then None
    else if creds[0].user == name then Some(creds[0])
    else
      var r := FindCredential(creds[1..], name);
      assert forall j :: 1 <= j < |creds| ==> creds[1..][j - 1] == creds[j];
      r
  }

  /** The authentication middleware: `None` lets the request through,
      otherwise the error passed to `next`. */
  function Authenticate(cfg: Config, auth: Option<BasicAuth>): (r: Option<ErrorObject>)
    ensures r.Some? ==> r.value == ClientError(401, Unauthorized)
  {
    if auth.None? then Some(ClientError(401, Unauthorized))
    else
      var valid := FindCredential(cfg.credentials, auth.value.name);
      if valid.None? || cfg.sha256Hex(auth.value.pass) != valid.value.pwHash then Some(ClientError(401, Unauthorized))
      else None
  }

  /** Who gets in, stated without the search: the request carries Basic
      credentials, and the first configuration entry for that user holds
      the digest of the given password. */
  ghost predicate Admitted(cfg: Config, auth: Option<BasicAuth>) {
    && auth.Some?
    && exists i :: 0 <= i < |cfg.credentials|
         && cfg.credentials[i].user == auth.value.name
         && cfg.credentials[i].pwHash == cfg.sha256Hex(auth.value.pass)
         && forall j :: 0 <= j < i ==> cfg.credentials[j].user != auth.value.name
  }

  lemma AuthenticateAdmits(cfg: Config, auth: Option<BasicAuth>)
    ensures Authenticate(cfg, auth).None? <==> Admitted(cfg, auth)
  {
    if auth.Some? {
      var creds := cfg.credentials;
      var name := auth.value.name;
      var found := FindCredential(creds, name);
      if Admitted(cfg, auth) {
        var i :| 0 <= i < |creds| && creds[i].user == name && creds[i].pwHash == cfg.sha256Hex(auth.value.pass)
                 && forall j :: 0 <= j < i ==> creds[j].user != name;
        var k :| 0 <= k < |creds| && creds[k] == found.value && found.value.user == name
                 && forall j :: 0 <= j < k ==> creds[j].user != name;
        assert !(i < k) && !(k < i);
      }
    }
  }

  /** A later entry for the same user never matters: with the first entry
      for `name` holding another digest, the request is refused even if a
      later entry matches. */
  lemma FirstEntryDecides(cfg: Config, name: string, pass: string, i: nat)
    requires i < |cfg.credentials| && cfg.credentials[i].user == name
    requires forall j :: 0 <= j < i ==> cfg.credentials[j].user != name
    requires cfg.credentials[i].pwHash != cfg.sha256Hex(pass)
    ensures Authenticate(cfg, Some(BasicAuth(name, pass))) == Some(ClientError(401, Unauthorized))
  {
    AuthenticateAdmits(cfg, Some(BasicAuth(name, pass)));
  }

  /** The response for an outcome of a handler: what it sent, or what the
      error handler makes of the error (no headers are out at that point). */
  function Respond(o: Outcome): Response {
    match o
    case Sent(resp) => resp
    case Next(err) => ErrorHandler(err, None)
  }

  /** The routes: authentication first, then for PUT and GET
      `validateParams` and the handler, for DELETE `validateDeleteBucket`,
      `validateParams` and the handler; every `next(err)` ends in the error
      handler. */
  function Serve(env: Env, cfg: Config, regclass: string -> Option<string>, st: Backend, req: HttpRequest): (r: Served)
    ensures Authenticate(cfg, req.auth).Some? ==> r == Served(st, Response(401, TextBody(Unauthorized)))
    ensures r.backend != st ==>
              && Authenticate(cfg, req.auth).None?
              && (req.verb == Delete ==> req.bucket in DeletableBuckets)
              && ValidateParams(regclass, req.bucket, req.segments).Valid?
  {
    match Authenticate(cfg, req.auth)
    case Some(err) => Served(st, ErrorHandler(err, None))
    case None =>
      var gate := if req.verb == Delete then ValidateDeleteBucket(req.bucket) else None;
      match gate
      case Some(err) => Served(st, ErrorHandler(err, None))
      case None =>
        match ValidateParams(regclass, req.bucket, req.segments)
        case Invalid(err) => Served(st, ErrorHandler(err, None))
        case Valid(bucket, key) =>
          var h := (
            match req.verb
            case Put => PutFile(env, st, PutRequest(bucket, key, req.contentMd5, req.body))
            case Get => GetFile(env, st, GetRequest(bucket, key, req.version))
            case Delete => DeleteVolatileFile(env, st, DeleteRequest(bucket, key)));
          Served(h.backend, Respond(h.outcome))
  }

  /** Without valid credentials nothing else runs: 401 "Unauthorized" for
      every method and path, even DELETE on a bucket outside the allow-list
      or a bucket that does not exist, and the backend is untouched. */
  lemma UnauthenticatedFirst(env: Env, cfg: Config, regclass: string -> Option<string>, st: Backend, req: HttpRequest)
    requires !Admitted(cfg, req.auth)
    ensures Serve(env, cfg, regclass, st, req) == Served(st, Response(401, TextBody(Unauthorized)))
  {
    AuthenticateAdmits(cfg, req.auth);
  }

  /** An admitted DELETE on a bucket outside the allow-list gets 405 before
      the bucket is looked up, whatever the database holds. */
  lemma DeleteAllowListBeforeLookup(env: Env, cfg: Config, regclass: string -> Option<string>, st: Backend, req: HttpRequest)
    requires Admitted(cfg, req.auth)
    requires req.verb == Delete && req.bucket !in DeletableBuckets
    ensures Serve(env, cfg, regclass, st, req) == Served(st, Response(405, TextBody(DeleteNotAllowed)))
  {
    AuthenticateAdmits(cfg, req.auth);
  }

  /** An admitted request on a bucket that is not served answers 404
      "Unknown bucket: <bucket>" and changes nothing. */
  lemma UnknownBucketRefused(env: Env, cfg: Config, regclass: string -> Option<string>, st: Backend, req: HttpRequest)
    requires Admitted(cfg, req.auth)
    requires req.verb != Delete || req.bucket in DeletableBuckets
    requires !HasPrefix(req.bucket, BucketPrefix) || regclass(req.bucket).None? || regclass(req.bucket) == Some("")
    ensures Serve(env, cfg, regclass, st, req) == Served(st, Response(404, TextBody("Unknown bucket: " + req.bucket)))
  {
    AuthenticateAdmits(cfg, req.auth);
  }

  /** An admitted PUT on a served bucket is `putFile` on the table name and
      the joined key; a missing `Content-MD5` is answered 400 with the
      backend unchanged. */
  lemma PutReachesHandler(env: Env, cfg: Config, regclass: string -> Option<string>, st: Backend, req: HttpRequest)
    requires Admitted(cfg, req.auth)
    requires req.verb == Put
    requires ValidateParams(regclass, req.bucket, req.segments).Valid?
    ensures var v := ValidateParams(regclass, req.bucket, req.segments);
            var h := PutFile(env, st, PutRequest(v.bucket, v.key, req.contentMd5, req.body));
            && Serve(env, cfg, regclass, st, req) == Served(h.backend, Respond(h.outcome))
            && (req.contentMd5 == "" ==> Serve(env, cfg, regclass, st, req) == Served(st, Response(400, TextBody(MissingChecksum))))
  {
    AuthenticateAdmits(cfg, req.auth);
  }

  /** GET never changes the backend; a repeated `version` is answered 400. */
  lemma GetIsReadOnly(env: Env, cfg: Config, regclass: string -> Option<string>, st: Backend, req: HttpRequest)
    requires req.verb == Get
    ensures Serve(env, cfg, regclass, st, req).backend == st
    ensures Admitted(cfg, req.auth) && ValidateParams(regclass, req.bucket, req.segments).Valid? && req.version.ManyVersions? ==>
              Serve(env, cfg, regclass, st, req).response == Response(400, TextBody(MultipleVersions))
  {
    AuthenticateAdmits(cfg, req.auth);
  }

  /** An admitted DELETE that gets through both middleware answers 200
      "OK" or, on any backend or database failure, 502. */
  lemma DeleteFailureIsUpstream(env: Env, cfg: Config, regclass: string -> Option<string>, st: Backend, req: HttpRequest)
    requires Admitted(cfg, req.auth)
    requires req.verb == Delete && req.bucket in DeletableBuckets
    requires ValidateParams(regclass, req.bucket, req.segments).Valid?
    ensures var r := Serve(env, cfg, regclass, st, req);
            r.response == Response(200, TextBody("OK")) || r.response.status == 502
  {
    AuthenticateAdmits(cfg, req.auth);
  }
}

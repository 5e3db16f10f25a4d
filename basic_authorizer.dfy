/**
 * The token authorizer of the import API: an HTTP `Basic` credential (the
 * scheme of section 2 of RFC 7617, matched without regard to letter case)
 * is decoded and checked against the environment, which maps user names to
 * passwords, and an IAM policy allowing or denying the call is returned.
 *
 * The credential is split at every colon and only the piece between the
 * first and the second colon is taken as the password, where RFC 7617 takes
 * everything after the first colon; the model keeps the code's reading.
 */
module BasicAuthorizer {
  import opened Wrappers
  import opened Text

  datatype Effect = Allow | Deny

  datatype Statement = Statement(action: string, effect: Effect, resource: string)

  datatype PolicyDocument = PolicyDocument(version: string, statement: seq<Statement>)

  /** What the authorizer gives back: a policy, or the thrown "Unauthorized". */
  datatype AuthResult = Unauthorized | Policy(principalId: string, policyDocument: PolicyDocument)

  /** The user name and what the code takes as the password, absent when there is no colon. */
  datatype Credentials = Credentials(username: string, password: Option<string>)

  /** The policy document that allows or denies invoking `resource`. */
  function GeneratePolicy(principalId: string, effect: Effect, resource: string): AuthResult {
    Policy(principalId, PolicyDocument("2012-10-17", [Statement("execute-api:Invoke", effect, resource)]))
  }

  /** The decoded credentials split at every colon: the first piece is the user name, the second the password. */
  function ParseCredentials(decoded: string): Credentials {
    var parts := Split(decoded, ':');
    Credentials(parts[0], if |parts| >= 2 then Some(parts[1]) else None)
  }

  /** The token's scheme is `basic ` in any letter case. */
  predicate IsBasic(token: string) {
    StartsWith(ToLower(token), "basic ")
  }

  /** A token of the `Basic` scheme has a space, so it splits into at least two pieces. */
  lemma BasicTokenHasSpace(token: string)
    requires IsBasic(token)
    ensures ' ' in token
  {
    assert ToLower(token)[5] == ' ';
    assert token[5] == ' ';
  }

  /** The second space-separated piece of the token: the text between its first and second space. */
  function EncodedCredentials(token: string): string
    requires IsBasic(token)
  {
    BasicTokenHasSpace(token);
    Split(token, ' ')[1]
  }

  /** The credentials a `Basic` token carries, decoded by `decode`. */
  function CredentialsOf(token: string, decode: string -> string): Credentials
    requires IsBasic(token)
  {
    ParseCredentials(decode(EncodedCredentials(token)))
  }

  /** The user's stored password is set, not empty, and strictly equal to the password sent. */
  predicate Matches(c: Credentials, env: map<string, string>) {
    c.username in env && env[c.username] != "" && c.password == Some(env[c.username])
  }

  /**
   * The handler, given the token (absent when the event has none), the
   * method ARN, the environment and the base64 decoder.
   */
  function Authorize(token: Option<string>, methodArn: string, env: map<string, string>, decode: string -> string): AuthResult {
    if token.None? || token.value == "" then Unauthorized
    else if !IsBasic(token.value) then Unauthorized
    else
      var c := CredentialsOf(token.value, decode);
      if !Matches(c, env) then GeneratePolicy("user", Deny, methodArn)
      else GeneratePolicy(c.username, Allow, methodArn)
  }

  /** The call is refused outright exactly when the token is missing, empty or not of the `Basic` scheme. */
  lemma UnauthorizedIff(token: Option<string>, methodArn: string, env: map<string, string>, decode: string -> string)
    ensures Authorize(token, methodArn, env, decode) == Unauthorized <==>
      token.None? || token.value == "" || !IsBasic(token.value)
  {
  }

  /**
   * The call is allowed exactly when the user named by the credentials has a
   * non-empty stored password equal to the password read from them; the
   * principal is then that user, and it is "user" on a denial.
   */
  lemma AllowIff(token: Option<string>, methodArn: string, env: map<string, string>, decode: string -> string)
    ensures var r := Authorize(token, methodArn, env, decode);
      && ((r.Policy? && r.policyDocument.statement[0].effect == Allow) <==>
            token.Some? && token.value != "" && IsBasic(token.value) && Matches(CredentialsOf(token.value, decode), env))
      && (r.Policy? && r.policyDocument.statement[0].effect == Allow ==>
            r.principalId == CredentialsOf(token.value, decode).username)
      && (r.Policy? && r.policyDocument.statement[0].effect == Deny ==> r.principalId == "user")
  {
  }

  /**
   * Every policy has version 2012-10-17 and exactly one statement, which
   * grants or denies `execute-api:Invoke` on the method ARN.
   */
  lemma PolicyShape(token: Option<string>, methodArn: string, env: map<string, string>, decode: string -> string)
    ensures var r := Authorize(token, methodArn, env, decode);
      r.Policy? ==>
        && r.policyDocument.version == "2012-10-17"
        && |r.policyDocument.statement| == 1
        && r.policyDocument.statement[0].action == "execute-api:Invoke"
        && r.policyDocument.statement[0].resource == methodArn
  {
  }

  /**
   * Because only the piece before the second colon is compared, a user whose
   * stored password contains a colon is never allowed, whatever the token.
   */
  lemma ColonPasswordNeverAllowed(token: Option<string>, methodArn: string, env: map<string, string>,
                                  decode: string -> string, user: string)
    requires user in env && ':' in env[user]
    ensures var r := Authorize(token, methodArn, env, decode);
      !(r.Policy? && r.policyDocument.statement[0].effect == Allow && r.principalId == user)
  {
    var r := Authorize(token, methodArn, env, decode);
    if r.Policy? && r.policyDocument.statement[0].effect == Allow {
      var parts := Split(decode(EncodedCredentials(token.value)), ':');
      assert ':' !in parts[1];
    }
  }

  /** Lowering the letters of `a + b` lowers those of `a` and of `b`. */
  lemma ToLowerAppend(a: string, b: string)
    ensures ToLower(a + b) == ToLower(a) + ToLower(b)
  {
    var l := ToLower(a + b);
    var r := ToLower(a) + ToLower(b);
    forall k | 0 <= k < |l| ensures l[k] == r[k] {
      if k < |a| {
        assert (a + b)[k] == a[k];
      } else {
        assert (a + b)[k] == b[k - |a|];
      }
    }
  }

  /** "Basic <b>" is of the `Basic` scheme and carries `b`, when `b` has no space. */
  lemma BasicTokenCarries(b: string)
    requires ' ' !in b
    ensures IsBasic("Basic " + b)
    ensures EncodedCredentials("Basic " + b) == b
  {
    var token := "Basic " + b;
    ToLowerAppend("Basic ", b);
    assert ToLower("Basic ") == "basic ";
    assert ToLower(token)[..6] == "basic ";
    assert token == "Basic" + [' '] + b;
    SplitCons("Basic", ' ', b);
    SplitNoSep(b, ' ');
  }

  /** "user:password" reads back as that user and password when neither has a colon. */
  lemma CredentialsRoundTrip(user: string, password: string)
    requires ':' !in user && ':' !in password
    ensures ParseCredentials(user + [':'] + password) == Credentials(user, Some(password))
  {
    SplitCons(user, ':', password);
    SplitNoSep(password, ':');
  }

  /**
   * Unlike RFC 7617, the password ends at the second colon: what follows it
   * is dropped.
   */
  lemma PasswordStopsAtSecondColon(user: string, first: string, rest: string)
    requires ':' !in user && ':' !in first
    ensures ParseCredentials(user + [':'] + first + [':'] + rest) == Credentials(user, Some(first))
  {
    assert user + [':'] + first + [':'] + rest == user + [':'] + (first + [':'] + rest);
    SplitCons(user, ':', first + [':'] + rest);
    SplitCons(first, ':', rest);
  }

  /**
   * A well-formed token "Basic <b>", where `b` has no space and decodes to
   * "user:password" with no colon in either part, is allowed exactly when
   * the stored password of `user` is `password` and not empty, and the
   * principal is then `user`.
   */
  lemma WellFormedTokenDecides(b: string, user: string, password: string, methodArn: string,
                               env: map<string, string>, decode: string -> string)
    requires ' ' !in b && ':' !in user && ':' !in password
    requires decode(b) == user + [':'] + password
    ensures var r := Authorize(Some("Basic " + b), methodArn, env, decode);
      && r.Policy?
      && (r.policyDocument.statement[0].effect == Allow <==> user in env && env[user] == password && password != "")
      && (r.policyDocument.statement[0].effect == Allow ==> r.principalId == user)
  {
    BasicTokenCarries(b);
    CredentialsRoundTrip(user, password);
    assert CredentialsOf("Basic " + b, decode) == Credentials(user, Some(password));
  }
}

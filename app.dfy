/** The Lambda function: the 2FA code hook handed to Spaceship, the fastlane
    session setup, and the load / refresh / save-if-changed handler. */
module App {
  import opened Outcomes
  import opened CodeExtraction
  import opened Sqs
  import opened SecretsManager

  /** Key of the session, both in the secret and in the environment. */
  const SessionKey := "FASTLANE_SESSION"
  /** Environment switch that turns off coloured fastlane output. */
  const DisableColorsKey := "FASTLANE_DISABLE_COLORS"

  /** The process environment `ENV`. */
  class Environment {
    var vars: map<string, string>

    constructor (initial: map<string, string>)
      ensures vars == initial
    {
      vars := initial;
    }
  }

  /** `TwoFAInterceptorClient#ask_for_2fa_code`: receive one message, extract
      its code, delete that message, return the code; raise NotFoundError
      when there is no message or no code, leaving the queue as it was. */
  method AskFor2faCode(sqs: Queue) returns (r: Result<string>)
    requires sqs.Valid()
    modifies sqs
    ensures sqs.Valid()
    ensures old(sqs.messages) == [] ==> r == Err(NotFoundError) && sqs.messages == old(sqs.messages)
    ensures old(sqs.messages) != [] && !HasCode(old(sqs.messages)[0].body) ==>
      r == Err(NotFoundError) && sqs.messages == old(sqs.messages)
    ensures old(sqs.messages) != [] && HasCode(old(sqs.messages)[0].body) ==>
      r == Ok(ExtractCode(old(sqs.messages)[0].body).value) && sqs.messages == old(sqs.messages)[1..]
    ensures r.Ok? ==> |r.value| == CodeLength && AllDigits(r.value)
  {
    var messages := sqs.ReceiveMessage(1);
    if messages == [] {
      return Err(NotFoundError);
    }
    var message := messages[0];
    var messageBody := message.body;
    var code := ExtractCode(messageBody);
    if code.None? || code.value == "" {
      return Err(NotFoundError);
    }
    ghost var q := sqs.messages;
    WithoutReceived(q, 0);
    sqs.DeleteMessage(message.receiptHandle);
    assert sqs.messages == q[1..] by { assert q[..0] + q[1..] == q[1..]; }
    return Ok(code.value);
  }

  /** The environment after the setup in `fastlane_spaceauth(session)`. */
  function PreparedEnv(env: map<string, string>, session: string): (r: map<string, string>)
    ensures Lookup(r, DisableColorsKey) == Some("1")
    ensures session != "" ==> Lookup(r, SessionKey) == Some(session)
    ensures session == "" ==> Lookup(r, SessionKey) == Lookup(env, SessionKey)
    ensures forall k :: k != SessionKey && k != DisableColorsKey ==> Lookup(r, k) == Lookup(env, k)
  {
    (if session != "" then env[SessionKey := session] else env)[DisableColorsKey := "1"]
  }

  /** `fastlane_spaceauth`: export a non-empty previous session and the
      no-colour switch, then run the Spaceship auth flow. `run` stands for
      that flow: it maps the session it finds in the environment to the
      session string it ends with. A `nil` session raises on `empty?`. */
  method FastlaneSpaceauth(env: Environment, fastlaneSession: Option<string>, run: Option<string> -> string)
    returns (r: Result<string>)
    modifies env
    ensures fastlaneSession.None? ==> r == Err(NoMethodError) && unchanged(env)
    ensures fastlaneSession.Some? ==>
      env.vars == PreparedEnv(old(env.vars), fastlaneSession.value) &&
      r == Ok(run(Lookup(env.vars, SessionKey)))
  {
    if fastlaneSession.None? {
      return Err(NoMethodError);
    }
    if fastlaneSession.value != "" {
      env.vars := env.vars[SessionKey := fastlaneSession.value];
    }
    env.vars := env.vars[DisableColorsKey := "1"];
    var newSession := run(Lookup(env.vars, SessionKey));
    return Ok(newSession);
  }

  /** `get_previously_saved_session`: the stored session, `nil` if absent. */
  method GetPreviouslySavedSession(store: SecretStore) returns (session: Option<string>)
    ensures session == Lookup(store.secret, SessionKey)
  {
    var secrets := store.GetSecretValue();
    session := Lookup(secrets, SessionKey);
  }

  /** The secret after `save_session(session)`: the session under
      FASTLANE_SESSION, every other entry as before. */
  function WithSession(secret: map<string, string>, session: string): (r: map<string, string>)
    ensures Lookup(r, SessionKey) == Some(session)
    ensures forall k :: k != SessionKey ==> Lookup(r, k) == Lookup(secret, k)
  {
    secret[SessionKey := session]
  }

  /** Saving a session leaves the secret as it was exactly when that session
      is already the stored one; so skipping an unchanged write loses nothing. */
  lemma WithSessionUnchangedIff(secret: map<string, string>, session: string)
    ensures WithSession(secret, session) == secret <==> Lookup(secret, SessionKey) == Some(session)
  {
  }

  /** `save_session`: read the secret, replace FASTLANE_SESSION, write it back. */
  method SaveSession(store: SecretStore, fastlaneSession: string)
    modifies store
    ensures store.secret == WithSession(old(store.secret), fastlaneSession)
    ensures store.writes == old(store.writes) + [store.secret]
  {
    var secrets := store.GetSecretValue();
    secrets := secrets[SessionKey := fastlaneSession];
    store.PutSecretValue(secrets);
  }

  /** `lambda_handler`: load the session, refresh it, save it only if it
      changed, and return the new session. */
  method LambdaHandler(store: SecretStore, env: Environment, run: Option<string> -> string)
    returns (r: Result<string>)
    modifies store, env
    ensures Lookup(old(store.secret), SessionKey).None? ==>
      r == Err(NoMethodError) && unchanged(store) && unchanged(env)
    ensures Lookup(old(store.secret), SessionKey).Some? ==>
      var previous := old(store.secret)[SessionKey];
      var prepared := PreparedEnv(old(env.vars), previous);
      var newSession := run(Lookup(prepared, SessionKey));
      r == Ok(newSession) && env.vars == prepared &&
      (newSession != previous ==>
        store.secret == WithSession(old(store.secret), newSession) &&
        store.writes == old(store.writes) + [store.secret]) &&
      (newSession == previous ==> unchanged(store))
    ensures r.Ok? ==> Lookup(store.secret, SessionKey) == Some(r.value)
  {
    var previousSession := GetPreviouslySavedSession(store);
    var result := FastlaneSpaceauth(env, previousSession, run);
    if result.Err? {
      return result;
    }
    var newSession := result.value;
    if newSession != previousSession.value {
      SaveSession(store, newSession);
    }
    return Ok(newSession);
  }
}

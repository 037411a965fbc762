/** The Secrets Manager secret holding the fastlane session, reduced to its
    decoded key/value map and the record of every value put into it. */
module SecretsManager {

  class SecretStore {
    /** The decoded `SecretString` of the current version. */
    var secret: map<string, string>
    /** Every map written with `put_secret_value`, oldest first; each put
        creates a new version even when the value is unchanged. */
    var writes: seq<map<string, string>>

    constructor (initial: map<string, string>)
      ensures secret == initial && writes == []
    {
      secret := initial;
      writes := [];
    }

    /** `get_secret_value`: the current map, nothing changes. */
    method GetSecretValue() returns (s: map<string, string>)
      ensures s == secret
    {
      s := secret;
    }

    /** `put_secret_value`: the given map becomes the current version. */
    method PutSecretValue(s: map<string, string>)
      modifies this
      ensures secret == s
      ensures writes == old(writes) + [s]
    {
      secret := s;
      writes := writes + [s];
    }
  }
}

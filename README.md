# auto-fastlane-spaceauth, modelled in Dafny

auto-fastlane-spaceauth is a scheduled AWS Lambda function that keeps a
fastlane (Spaceship) session for an Apple developer account alive. Each run
loads the previous `FASTLANE_SESSION` from a Secrets Manager secret, exports it
to the environment, runs the Spaceship auth flow, and writes the resulting
session back only if it changed. When Apple asks for a two-factor code, the
flow calls a hook, `ask_for_2fa_code`. The hook reads one SMS from an SQS queue,
takes the first six-digit code from the body, deletes that message and returns
the code.

The model has five modules:

- `Outcomes` (outcomes.dfy): `Option` (a value or Ruby's `nil`), `Result`, the
  two exceptions the handler can raise (`NotFoundError` stands for the
  `RuntimeError` that `raise "NotFoundError"` creates; there is no such class), and `Lookup` (Ruby's `hash[key]`).
- `CodeExtraction` (code_extraction.dfy): the regex `/\d{6}/` as a pure
  function. It is specified by "the leftmost index where six ASCII digits
  start". Ruby's `\d` matches only `0`..`9`.
- `Sqs` (sqs.dfy): queue messages, with a receipt handle and an SMS body. The
  queue is a class whose `messages` field changes when a message is deleted.
  Its invariant is that receipt handles are distinct.
- `SecretsManager` (secrets_manager.dfy): the secret as a class. It holds the
  decoded key/value map and the list of every map written to it, so a write
  can be seen even when it stores the same value.
- `App` (app.dfy): the process environment as a class, and the methods of
  `app.rb`.

The Spaceship auth flow is a parameter `run: Option<string> -> string`. It maps
the `FASTLANE_SESSION` it finds in the environment to the session it ends with.

One case is easy to miss. If the secret has no `FASTLANE_SESSION` key, `get_previously_saved_session`
returns `nil` and `fastlane_spaceauth` then raises `NoMethodError` on
`nil.empty?`. The handler fails and nothing is written. The model returns
`Err(NoMethodError)` there.

## Model

| member | source | states |
|---|---|---|
| `Outcomes.Lookup` | auto-fastlane-spaceauth/app.rb:74 | the result is present exactly when the key is in the map, and then it is the stored value |
| `CodeExtraction.FirstRunFrom` | auto-fastlane-spaceauth/app.rb:34 | a found index is at or after the start, six digits start there, and no earlier index from the start has six digits; when nothing is found, no index from the start has six digits |
| `CodeExtraction.ExtractCode` | auto-fastlane-spaceauth/app.rb:34 | a code is found iff the body holds six consecutive ASCII digits; a found code has length 6, is all digits, and is the body's slice at the leftmost such index |
| `CodeExtraction.ExtractCodeIsLeftmost` | auto-fastlane-spaceauth/app.rb:34 | for any leftmost six-digit index, the extracted code is the slice at that index (the converse of ExtractCode's contract) |
| `CodeExtraction.ExtractCodeIgnoresSuffix` | auto-fastlane-spaceauth/app.rb:34 | once a body holds a code, appending text never changes the code extracted |
| `CodeExtraction.ExtractCodeIgnoresDigitFreePrefix` | auto-fastlane-spaceauth/app.rb:34 | text without digits put in front of a body never changes the result, whether a code is found or not |
| `CodeExtraction.LongerRunGivesFirstSix` | auto-fastlane-spaceauth/app.rb:34 | in the seven-digit run `1234567` the code is the first six digits `123456` |
| `CodeExtraction.TypicalSmsGivesItsCode` | auto-fastlane-spaceauth/app.rb:34-37 | an Apple-style SMS with the code in the middle of the text yields that code |
| `CodeExtraction.ShortRunsGiveNoCode` | auto-fastlane-spaceauth/app.rb:34-37 | two five-digit runs split by a space yield no code, which is the NotFoundError case |
| `Sqs.Without` | auto-fastlane-spaceauth/app.rb:42-45 | after deletion by a handle, the queue holds exactly the messages whose handle differs, and it never grows |
| `Sqs.WithoutAbsent` | auto-fastlane-spaceauth/app.rb:42-45 | deleting a handle that no message holds leaves the queue as it was |
| `Sqs.WithoutReceived` | auto-fastlane-spaceauth/app.rb:42-45 | with distinct handles, deleting by the handle of the message at index k removes exactly that message and keeps all others in their original order |
| `Sqs.RemovalKeepsHandlesDistinct` | auto-fastlane-spaceauth/app.rb:42-45 | removing one message keeps the receipt handles distinct, which is the queue invariant |
| `Sqs.Queue.ReceiveMessage` | auto-fastlane-spaceauth/app.rb:20-24 | returns at most the requested number of messages, oldest first; returns none exactly when the queue is empty; the queue is unchanged |
| `Sqs.Queue.DeleteMessage` | auto-fastlane-spaceauth/app.rb:42-45 | the queue becomes `Without` its old contents and the handle, and stays valid |
| `SecretsManager.SecretStore.GetSecretValue` | auto-fastlane-spaceauth/app.rb:82-85 | returns the current decoded secret and changes nothing |
| `SecretsManager.SecretStore.PutSecretValue` | auto-fastlane-spaceauth/app.rb:87-90 | the given map becomes the secret and is appended to the record of writes |
| `App.AskFor2faCode` | auto-fastlane-spaceauth/app.rb:16-48 | on an empty queue, or when the received message has no code, it fails with NotFoundError and the queue is unchanged; otherwise it returns the code extracted from the received message and removes only that message, others keeping their order; a returned code is six ASCII digits |
| `App.PreparedEnv` | auto-fastlane-spaceauth/app.rb:54-58 | `FASTLANE_DISABLE_COLORS` is `1`; `FASTLANE_SESSION` is the session if it is non-empty and otherwise keeps its old value or absence; every other variable is unchanged |
| `App.FastlaneSpaceauth` | auto-fastlane-spaceauth/app.rb:51-65 | a `nil` session fails with NoMethodError and leaves the environment alone; otherwise the environment becomes `PreparedEnv` and the result is the auth flow applied to the exported session |
| `App.GetPreviouslySavedSession` | auto-fastlane-spaceauth/app.rb:68-77 | returns the secret's `FASTLANE_SESSION`, or `nil` when the key is absent |
| `App.WithSession` | auto-fastlane-spaceauth/app.rb:85-86 | `FASTLANE_SESSION` holds the given session; every other key keeps its presence and value |
| `App.WithSessionUnchangedIff` | auto-fastlane-spaceauth/app.rb:98-99 | saving a session leaves the secret equal iff that session is already stored, so skipping an unchanged write loses nothing |
| `App.SaveSession` | auto-fastlane-spaceauth/app.rb:80-92 | the secret becomes `WithSession` of the old secret, and exactly that map is written once |
| `App.LambdaHandler` | auto-fastlane-spaceauth/app.rb:94-108 | with no stored session it fails with NoMethodError and changes nothing; otherwise it prepares the environment, writes the secret (only `FASTLANE_SESSION` replaced) iff the new session differs from the previous one, leaves the store untouched otherwise, and returns the new session, which is then the stored one |

## Left out

- JSON decoding and encoding (app.rb:29, 73, 85, 89) are not modelled. A message body is the already unwrapped `messageBody`, and the secret is the decoded map. Malformed JSON and missing `Message` or `messageBody` keys are not modelled.
- AWS clients are reduced to the queue and secret state. Network failures, credentials, throttling, secret and queue identifiers, and the 20-second long poll are not modelled.
- `Sqs.Queue.ReceiveMessage` always returns the oldest messages and never returns an empty batch while messages are visible. Real SQS may deliver any message, may return nothing after the long poll, and hides received messages for a visibility timeout. None of this is modelled.
- `Sqs.Queue.DeleteMessage` treats an unknown receipt handle as a no-op. SQS would reject it with an error.
- The Spaceship auth flow (app.rb:62) is the parameter `run`. Its own failures, its prompts and its calls to `ask_for_2fa_code` are not modelled. The `prepend` of the hook (app.rb:60) is not modelled either.
- `App.LambdaHandler` returns the new session as a string, not as the one-entry hash `{FASTLANE_SESSION: ...}`.
- The default argument `""` of `fastlane_spaceauth` (app.rb:51) and of `save_session` (app.rb:80) is not modelled. `lambda_handler` always passes an argument, so no behaviour is lost.
- `puts` logging is not modelled.
- auto-fastlane-spaceauth/test_sqs.rb is a manual debugging script that repeats the receive, extract and delete steps of app.rb. It is not part of this model.

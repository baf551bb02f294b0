# discord-interactions: request authentication, modelled in Dafny

This project models the request-authentication core of the Python package
`discord_interactions` (version 0.4.1), the helper that guards an interaction
webhook endpoint.

- `Interaction.verify` builds the signed message as the timestamp's bytes
  followed by the raw body. It decodes the hex public key and the hex
  signature, and runs an Ed25519 check (section 5.1.7 of RFC 8032) through
  PyNaCl. Every failure inside its `try` becomes `False`.
- `Interaction.handle` wraps the application's handler. It rejects an
  unverified request with `('Bad request signature', 401)`. It answers a
  verified ping with `{'type': PONG}`. Otherwise it calls the handler with
  the original arguments and returns the handler's result.
- `InteractionVerifier.__call__` takes the body and the `X-Signature-Ed25519`
  and `X-Signature-Timestamp` headers from the request, adds the configured
  public key, and hands them to `Interaction`.
- The wire constants: interaction kinds 1-5, response kinds 1 and 4-9, and the
  flag `EPHEMERAL = 1 << 6`.

Files:

- `base.dfy`: `Option` and `byte`.
- `hex.dfy`: `bytes.fromhex`, with `bytes.hex()` as its inverse.
- `utf8.dfy`: `str.encode()`, which is UTF-8.
- `constants.dfy`: the wire constants as closed enumerations.
- `interaction.dfy`: `verify`, `handle`, `InteractionVerifier` and the request
  they read.

How the model stands in for what it cannot see:

- The Ed25519 primitive (libsodium's `crypto_sign_open`) is a parameter
  `open` of every function that verifies. The length checks that PyNaCl makes
  before calling it are written out: a 32-byte key and a 64-byte signature.
  Every property holds for every choice of `open`.
- Flask's ambient `request` becomes an explicit `Request` value. It holds the
  body bytes, a header map, and what reading `request.json` gives: `None`, an
  exception, or a parsed value.
- Each wrapper call returns a `Call`. A `Call` holds the outcome and the list
  of argument values the handler was called with. This list is what makes
  "never called" and "called once, with the original arguments" statable.

Behaviour of the code that is easy to miss:

- A request without `X-Signature-Timestamp` is not rejected with 401. The
  timestamp is `None`, and `None.encode()` at line 35 runs before the `try`.
  So `verify` raises `AttributeError`, and the exception leaves the wrapper.
  The model's outcome for this case is `Propagated(AttributeError)`, and the
  handler is still never reached (`Interactions.MissingTimestampRaises`). A
  missing signature header is different: `bytes.fromhex(None)` is inside the
  `try`, so it yields a plain rejection.
- The timestamp is signed as its UTF-8 bytes, not as decoded hex.
- A verified body that is truthy JSON but not an object raises
  `AttributeError` from `.get`. Examples are a non-empty list, a non-empty
  string, a non-zero number, and `true`. The body is not handed to the
  handler in that case.
- Python's `==` also makes `{"type": true}` and `{"type": 1.0}` pings.

## Model

| member | source | states |
|---|---|---|
| `Hex.ToHex` | discord_interactions/__init__.py:37-38 | `bytes.hex()`, the inverse used for `fromhex`, writes exactly two digits per byte |
| `Hex.IsSpace` | discord_interactions/__init__.py:37-38 | the whitespace `bytes.fromhex` skips is ASCII only and never a hex digit |
| `Hex.FromHex` | discord_interactions/__init__.py:37-38 | `bytes.fromhex`: with no whitespace, an odd number of characters is an error, and a success uses exactly two characters per byte |
| `Hex.FromHexToHex` | discord_interactions/__init__.py:37-38 | `bytes.fromhex` gives back every byte string from its hex text |
| `Hex.ToHexFromHex` | discord_interactions/__init__.py:37-38 | every canonical hex string (lower-case digits, no whitespace) decodes, and encodes back to itself |
| `Hex.FromHexLength` | discord_interactions/__init__.py:37-38 | a successful decode takes at least two characters per byte, and exactly two when there is no whitespace |
| `Hex.FromHexBlank` | discord_interactions/__init__.py:38 | an empty or all-whitespace hex string decodes to no bytes, not an error |
| `Hex.FromHexRejectsForeign` | discord_interactions/__init__.py:37-38 | a character that is neither a hex digit nor whitespace makes decoding fail |
| `Utf8.EncodeChar` | discord_interactions/__init__.py:35 | each character becomes one to four bytes; its first byte announces the length, and the rest are continuation bytes |
| `Utf8.Encode` | discord_interactions/__init__.py:35 | `str.encode()` writes between one and four bytes per character |
| `Utf8.EncodeAscii` | discord_interactions/__init__.py:35 | an ASCII timestamp is encoded one byte per character, each byte being the character's code |
| `Utf8.EncodeInjective` | discord_interactions/__init__.py:35 | different timestamps encode to different bytes, even with a tail of equal length after them |
| `Constants.InteractionCode` | discord_interactions/__init__.py:8-13 | interaction kinds have codes 1 to 5, and `PING` is exactly the code 1 |
| `Constants.InteractionTypeOf` | discord_interactions/__init__.py:8-13 | a code names an interaction kind exactly when it is 1 to 5 |
| `Constants.InteractionCodeRoundTrip` | discord_interactions/__init__.py:8-13 | kinds and codes correspond one to one |
| `Constants.ResponseCode` | discord_interactions/__init__.py:15-22 | response kinds have codes 1, 4, 5, 6, 7, 8 and 9, and `PONG` is exactly the code 1 |
| `Constants.ResponseTypeOf` | discord_interactions/__init__.py:15-22 | a code names a response kind exactly when it is 1 or 4 to 9 |
| `Constants.ResponseCodeRoundTrip` | discord_interactions/__init__.py:15-22 | response kinds and codes correspond one to one |
| `Constants.ShiftLeft` | discord_interactions/__init__.py:25 | Python's `x << n` is `x` times two to the power `n` |
| `Constants.EphemeralIsBit6` | discord_interactions/__init__.py:24-25 | `EPHEMERAL` is `1 << 6`, which is two to the power 6, that is 64 |
| `Interactions.SignedMessage` | discord_interactions/__init__.py:35 | the signed message is the encoded timestamp followed by the body: the prefix is the timestamp and the rest is the body |
| `Interactions.SignedMessageOfAsciiTimestamp` | discord_interactions/__init__.py:35 | with a decimal timestamp, the message is the digits' ASCII codes and then the body bytes at the following positions |
| `Interactions.SignedMessageSeparates` | discord_interactions/__init__.py:35 | changing only the timestamp, or only the body, changes the signed message |
| `Interactions.Ed25519Accepts` | discord_interactions/__init__.py:37-38 | PyNaCl accepts only a 32-byte key and a 64-byte signature, and never a signature the primitive rejects |
| `Interactions.Verify` | discord_interactions/__init__.py:34-42 | `verify` raises exactly when the timestamp is missing. It returns true exactly when both hex strings decode and PyNaCl accepts the message under the key: 32-byte key, 64-byte signature, and the primitive agrees |
| `Interactions.VerifyFailuresAreFalse` | discord_interactions/__init__.py:36-42 | bad key hex, a missing signature, bad signature hex, a wrong key or signature length, and a primitive that says no all give `False`, not an exception |
| `Interactions.BlankSignatureRejected` | discord_interactions/__init__.py:38-42 | an empty or blank signature header never verifies |
| `Interactions.VerifyDependsOnlyOnMessage` | discord_interactions/__init__.py:35-39 | verification sees the timestamp and the body only through the signed message |
| `Interactions.PongBody` | discord_interactions/__init__.py:51 | the ping reply is the object with the single key `type`, equal to `PONG`, which is 1 |
| `Interactions.Truthy` | discord_interactions/__init__.py:50 | JSON `null` is never truthy, and an object that has a `type` key always is |
| `Interactions.EqualsInt` | discord_interactions/__init__.py:50 | Python's `v == n` holds only for a number of value `n` or a boolean when `n` is 0 or 1; `True == 1` and `1.0 == 1` both hold |
| `Interactions.IsPing` | discord_interactions/__init__.py:50 | a ping body is truthy, so its tag is read without raising, and is an object whose `type` equals 1 |
| `Interactions.TagLookupRaises` | discord_interactions/__init__.py:50 | reading the tag never raises when `request.json` is `None`; when it raises on a parsed value, that value is truthy and not an object |
| `Interactions.Handle` | discord_interactions/__init__.py:44-54 | the outcome is the 401 rejection exactly when verification returns false. The handler is called at most once. It is called exactly when the outcome is the handler's result, and only with the original arguments. It is called only for a verified non-ping request whose tag could be read. A pong is given only to a verified ping |
| `Interactions.RejectionPrecedesParsing` | discord_interactions/__init__.py:46-47 | a request that fails verification gets `('Bad request signature', 401)` whatever its body, and the handler is not called |
| `Interactions.MissingTimestampRaises` | discord_interactions/__init__.py:34-47 | without a timestamp the wrapper raises `AttributeError` and never calls the handler |
| `Interactions.TagLookupRaisesPropagates` | discord_interactions/__init__.py:49-51 | a verified request whose tag cannot be read raises out of the wrapper without calling the handler: the `request.json` exception, or `AttributeError` from `.get` on a truthy non-object |
| `Interactions.PingAnsweredIffVerified` | discord_interactions/__init__.py:46-51 | the pong `{"type": 1}` is the reply exactly for verified requests whose JSON object has `type` equal to `PING` |
| `Interactions.DelegatesOtherwise` | discord_interactions/__init__.py:49-53 | any other verified request with a readable tag calls the handler once with the original arguments and returns its result unchanged |
| `Interactions.Header` | discord_interactions/__init__.py:64-65 | `headers.get(name)` is the header's value when present and `None` otherwise |
| `Interactions.InteractionOf` | discord_interactions/__init__.py:63-67 | body, signature header, timestamp header and configured key go to `Interaction` unchanged |
| `Interactions.Decorated` | discord_interactions/__init__.py:60-70 | end to end: no timestamp header raises, and a timestamp without a signature header is rejected with 401. The handler is reached at most once, only with both headers, a signature accepted over timestamp ++ body under the configured key, and a body that is not a ping |

## Left out

- The Ed25519 curve arithmetic inside libsodium: it is a parameter of the model, not a definition. Round-trip and tamper-sensitivity of the signature scheme itself therefore cannot be stated. What is proved is that any change to the timestamp alone or the body alone changes the bytes the primitive is asked about.
- `print(ex)` at line 41: a log line with no effect on the result.
- `functools.wraps` at line 61: it copies the handler's name and docstring only.
- Flask's `jsonify` response object and HTTP status 200: the ping reply is modelled as its JSON body.
- The HTTP response that Flask makes from an exception leaving the wrapper (normally a 500 error page). The model stops at `Propagated(...)`.
- How `request.json` parses the body, and whether it returns `None` or raises for a non-JSON content type. This depends on the Flask version; both are inputs of the model.
- Werkzeug's case-insensitive header names: headers are a map matched by exact name.
- JSON `NaN` and `Infinity`, which Python's parser accepts: numbers are exact reals. Such values are never equal to 1, so they matter only as a whole body, where they would raise like any other truthy non-object.
- Strings holding lone surrogates, which Python's `str.encode()` refuses: Dafny characters are Unicode scalar values.
- Exceptions raised by the application's handler: the handler is a total function, and its own effects are represented only by the record of its calls.
- Concurrency: there is none in the source. Each call is independent and the configuration is read-only.

/**
 * Request authentication for interaction webhooks: `Interaction.verify`
 * (the Ed25519 check of timestamp ++ body), `Interaction.handle` (reject,
 * answer a ping, or call the application's handler) and
 * `InteractionVerifier.__call__` (take the inputs from the request).
 *
 * The web framework's ambient request becomes an explicit `Request` value,
 * the Ed25519 primitive becomes a parameter `open`, and every call of the
 * application's handler is recorded in the result, so that "never called" and
 * "called once, with these arguments" can be stated.
 */
module Interactions {
  import opened Wrappers
  import opened Bytes
  import Hex
  import Utf8
  import Constants

  /** Sizes PyNaCl insists on before the signature reaches libsodium. */
  const PublicKeyLength: nat := 32
  const SignatureLength: nat := 64

  /**
   * libsodium's Ed25519 verification (section 5.1.7 of RFC 8032) of a
   * signature over a message under a public key, consulted only for a 32-byte
   * key and a 64-byte signature.  The curve arithmetic is not modelled.
   */
  type Ed25519Open = (seq<byte>, seq<byte>, seq<byte>) -> bool

  /**
   * `VerifyKey(pk).verify(message, sig)` returns instead of raising: the key
   * and the signature have the sizes PyNaCl checks, and the primitive accepts.
   */
  predicate Ed25519Accepts(open: Ed25519Open, pk: seq<byte>, message: seq<byte>, sig: seq<byte>)
    ensures Ed25519Accepts(open, pk, message, sig) ==> |pk| == PublicKeyLength && |sig| == SignatureLength
    ensures !open(pk, message, sig) ==> !Ed25519Accepts(open, pk, message, sig)
  {
    |pk| == PublicKeyLength && |sig| == SignatureLength && open(pk, message, sig)
  }

  /** The fields of an `Interaction`; `signature` and `timestamp` are `None` when the header was absent. */
  datatype Interaction = Interaction(
    rawBody: seq<byte>,
    signature: Option<string>,
    timestamp: Option<string>,
    clientPublicKey: string)

  /** The exceptions that can leave the wrapper. */
  datatype Exception =
    | AttributeError   // `None.encode()`, or `.get` on parsed JSON that is not an object
    | JsonLoadError    // `request.json` itself raised

  /** What a call of `verify` does: return a boolean or raise. */
  datatype VerifyResult = Returned(verified: bool) | Threw(error: Exception)

  /** The bytes that are signed: the encoded timestamp, then the body. */
  function SignedMessage(timestamp: string, body: seq<byte>): (m: seq<byte>)
    ensures |m| == |Utf8.Encode(timestamp)| + |body|
    ensures m[..|Utf8.Encode(timestamp)|] == Utf8.Encode(timestamp)
    ensures m[|Utf8.Encode(timestamp)|..] == body
  {
    Utf8.Encode(timestamp) + body
  }

  /**
   * `Interaction.verify`.  The timestamp is encoded before the `try`, so a
   * missing timestamp raises; every failure inside the `try` (bad hex, wrong
   * key or signature size, a missing signature, a rejected signature) becomes
   * `False`.
   */
  function Verify(i: Interaction, open: Ed25519Open): (r: VerifyResult)
    ensures r.Threw? <==> i.timestamp.None?
    ensures r.Threw? ==> r.error == AttributeError
    ensures r == Returned(true) <==>
      && i.timestamp.Some?
      && i.signature.Some?
      && Hex.FromHex(i.clientPublicKey).Some?
      && Hex.FromHex(i.signature.value).Some?
      && Ed25519Accepts(open, Hex.FromHex(i.clientPublicKey).value,
                        SignedMessage(i.timestamp.value, i.rawBody),
                        Hex.FromHex(i.signature.value).value)
  {
    match i.timestamp
    case None => Threw(AttributeError)
    case Some(ts) =>
      var message := SignedMessage(ts, i.rawBody);
      Returned(
        match Hex.FromHex(i.clientPublicKey)
        case None => false
        case Some(pk) =>
          match i.signature
          case None => false
          case Some(sigHex) =>
            match Hex.FromHex(sigHex)
            case None => false
            case Some(sig) => Ed25519Accepts(open, pk, message, sig))
  }

  /** Each way verification can fail, once the timestamp is there, yields `False` rather than an exception. */
  lemma VerifyFailuresAreFalse(i: Interaction, open: Ed25519Open)
    requires i.timestamp.Some?
    ensures Hex.FromHex(i.clientPublicKey).None? ==> Verify(i, open) == Returned(false)
    ensures i.signature.None? ==> Verify(i, open) == Returned(false)
    ensures i.signature.Some? && Hex.FromHex(i.signature.value).None? ==> Verify(i, open) == Returned(false)
    ensures Hex.FromHex(i.clientPublicKey).Some? && |Hex.FromHex(i.clientPublicKey).value| != PublicKeyLength
            ==> Verify(i, open) == Returned(false)
    ensures i.signature.Some? && Hex.FromHex(i.signature.value).Some?
            && |Hex.FromHex(i.signature.value).value| != SignatureLength
            ==> Verify(i, open) == Returned(false)
    ensures i.signature.Some? && Hex.FromHex(i.clientPublicKey).Some? && Hex.FromHex(i.signature.value).Some?
            && !open(Hex.FromHex(i.clientPublicKey).value, SignedMessage(i.timestamp.value, i.rawBody),
                     Hex.FromHex(i.signature.value).value)
            ==> Verify(i, open) == Returned(false)
  {
  }

  /** An empty (or blank) signature header decodes to no bytes and can never verify. */
  lemma BlankSignatureRejected(i: Interaction, open: Ed25519Open)
    requires i.timestamp.Some? && i.signature.Some?
    requires forall k :: 0 <= k < |i.signature.value| ==> Hex.IsSpace(i.signature.value[k])
    ensures Verify(i, open) == Returned(false)
  {
    Hex.FromHexBlank(i.signature.value);
  }

  /** Verification sees the timestamp and the body only through the signed message. */
  lemma VerifyDependsOnlyOnMessage(i: Interaction, j: Interaction, open: Ed25519Open)
    requires i.timestamp.Some? && j.timestamp.Some?
    requires i.signature == j.signature && i.clientPublicKey == j.clientPublicKey
    requires SignedMessage(i.timestamp.value, i.rawBody) == SignedMessage(j.timestamp.value, j.rawBody)
    ensures Verify(i, open) == Verify(j, open)
  {
  }

  /**
   * Changing the timestamp alone, or the body alone, changes the signed
   * message, so a signature made for one is checked against different bytes.
   */
  lemma SignedMessageSeparates(ts: string, ts': string, body: seq<byte>, body': seq<byte>)
    requires ts != ts' || body != body'
    requires ts == ts' || body == body'
    ensures SignedMessage(ts, body) != SignedMessage(ts', body')
  {
    if ts != ts' && SignedMessage(ts, body) == SignedMessage(ts', body') {
      Utf8.EncodeInjective(ts, ts', body, body');
    }
  }

  /** A decimal timestamp contributes exactly its digits' ASCII codes, ahead of the body. */
  lemma SignedMessageOfAsciiTimestamp(ts: string, body: seq<byte>)
    requires Utf8.IsAscii(ts)
    ensures |SignedMessage(ts, body)| == |ts| + |body|
    ensures forall k :: 0 <= k < |ts| ==> SignedMessage(ts, body)[k] == ts[k] as int
    ensures forall k :: 0 <= k < |body| ==> SignedMessage(ts, body)[|ts| + k] == body[k]
  {
    Utf8.EncodeAscii(ts);
  }

  /** The parsed JSON body, as Python values. Numbers are their exact values. */
  datatype Json =
    | Null
    | Bool(b: bool)
    | Number(n: real)
    | Str(s: string)
    | Array(items: seq<Json>)
    | Object(fields: map<string, Json>)

  /** What reading `request.json` gives: `None`, an exception, or the parsed value. */
  datatype JsonAccess = NoJson | JsonRaises | Parsed(value: Json)

  /** Python's truth value of a parsed JSON value. */
  predicate Truthy(v: Json)
    ensures Truthy(v) ==> v != Null
    ensures v.Object? && "type" in v.fields ==> Truthy(v)
  {
    match v
    case Null => false
    case Bool(b) => b
    case Number(n) => n != 0.0
    case Str(s) => |s| > 0
    case Array(items) => |items| > 0
    case Object(fields) => |fields| > 0
  }

  /** Python's `v == n` for an integer `n`: a number of that value (`1.0 == 1`), or a boolean (`True == 1`). */
  predicate EqualsInt(v: Json, n: int)
    ensures EqualsInt(v, n) ==> (v.Number? && v.n == n as real) || (v.Bool? && (n == 0 || n == 1))
    ensures v == Bool(true) && n == 1 ==> EqualsInt(v, n)
    ensures v == Number(n as real) ==> EqualsInt(v, n)
  {
    match v
    case Number(x) => x == n as real
    case Bool(b) => (if b then 1 else 0) == n
    case _ => false
  }

  /** The body is a JSON object whose `type` equals `InteractionType.PING`. */
  predicate IsPing(json: JsonAccess)
    ensures IsPing(json) ==> json.Parsed? && Truthy(json.value) && !TagLookupRaises(json)
    ensures IsPing(json) ==> json.value.Object? && "type" in json.value.fields
                             && EqualsInt(json.value.fields["type"], 1)
  {
    && json.Parsed?
    && json.value.Object?
    && "type" in json.value.fields
    && EqualsInt(json.value.fields["type"], Constants.InteractionCode(Constants.Ping))
  }

  /** Reading the type tag raises: `request.json` raises, or it is truthy but not an object. */
  predicate TagLookupRaises(json: JsonAccess)
    ensures json.NoJson? ==> !TagLookupRaises(json)
    ensures TagLookupRaises(json) && json.Parsed? ==> Truthy(json.value) && !json.value.Object?
  {
    json.JsonRaises? || (json.Parsed? && Truthy(json.value) && !json.value.Object?)
  }

  /** What the wrapper returns, or the exception that leaves it. */
  datatype Outcome<R> =
    | Rejected(message: string, status: int)   // `('Bad request signature', 401)`
    | Pong(body: Json)                          // `jsonify({'type': PONG})`, status 200
    | Delegated(result: R)                      // the handler's own return value
    | Propagated(error: Exception)

  /** One call of the wrapper: its outcome and the arguments of every call it made to the handler. */
  datatype Call<A, R> = Call(outcome: Outcome<R>, handlerCalls: seq<A>)

  const RejectionMessage: string := "Bad request signature"
  const RejectionStatus: int := 401

  /** The body of the ping reply, `{'type': InteractionResponseType.PONG}`. */
  function PongBody(): (j: Json)
    ensures j.Object? && j.fields.Keys == {"type"}
    ensures j.fields["type"] == Number(Constants.ResponseCode(Constants.Pong) as real)
    ensures j.fields["type"] == Number(1.0)
  {
    Object(map["type" := Number(Constants.ResponseCode(Constants.Pong) as real)])
  }

  /**
   * `Interaction.handle(handler)(args)`: verify first; only a verified request
   * has its body read, and only a verified request that is not a ping reaches
   * the handler, once, with the original arguments.
   */
  function Handle<A, R>(i: Interaction, open: Ed25519Open, json: JsonAccess, handler: A -> R, args: A): (c: Call<A, R>)
    ensures |c.handlerCalls| <= 1
    ensures c.outcome.Rejected? <==> Verify(i, open) == Returned(false)
    ensures c.handlerCalls != [] <==> c.outcome.Delegated?
    ensures c.handlerCalls != [] ==> c.handlerCalls == [args] && c.outcome.result == handler(args)
    ensures c.handlerCalls != [] ==> Verify(i, open) == Returned(true) && !IsPing(json) && !TagLookupRaises(json)
    ensures c.outcome.Pong? ==> Verify(i, open) == Returned(true) && IsPing(json)
  {
    match Verify(i, open)
    case Threw(e) => Call(Propagated(e), [])
    case Returned(false) => Call(Rejected(RejectionMessage, RejectionStatus), [])
    case Returned(true) =>
      match json
      case JsonRaises => Call(Propagated(JsonLoadError), [])
      case NoJson => Call(Delegated(handler(args)), [args])
      case Parsed(v) =>
        if !Truthy(v) then Call(Delegated(handler(args)), [args])
        else if !v.Object? then Call(Propagated(AttributeError), [])
        else if "type" in v.fields && EqualsInt(v.fields["type"], Constants.InteractionCode(Constants.Ping))
        then Call(Pong(PongBody()), [])
        else Call(Delegated(handler(args)), [args])
  }

  /** A request that fails verification is rejected with 401 before its body is looked at. */
  lemma RejectionPrecedesParsing<A, R>(i: Interaction, open: Ed25519Open, json: JsonAccess, handler: A -> R, args: A)
    requires Verify(i, open) == Returned(false)
    ensures Handle(i, open, json, handler, args) == Call(Rejected("Bad request signature", 401), [])
  {
  }

  /** A request without a timestamp header raises out of the wrapper and never reaches the handler. */
  lemma MissingTimestampRaises<A, R>(i: Interaction, open: Ed25519Open, json: JsonAccess, handler: A -> R, args: A)
    requires i.timestamp.None?
    ensures Handle(i, open, json, handler, args) == Call(Propagated(AttributeError), [])
  {
  }

  /**
   * A verified request whose type tag cannot be read raises out of the
   * wrapper: the exception of `request.json` itself, or `AttributeError` from
   * `.get` on a truthy value that is not an object.
   */
  lemma TagLookupRaisesPropagates<A, R>(i: Interaction, open: Ed25519Open, json: JsonAccess, handler: A -> R, args: A)
    requires Verify(i, open) == Returned(true) && TagLookupRaises(json)
    ensures Handle(i, open, json, handler, args)
         == Call(Propagated(if json.JsonRaises? then JsonLoadError else AttributeError), [])
  {
  }

  /** The ping reply is given exactly for verified pings, and is `{"type": 1}`. */
  lemma PingAnsweredIffVerified<A, R>(i: Interaction, open: Ed25519Open, json: JsonAccess, handler: A -> R, args: A)
    ensures Handle(i, open, json, handler, args).outcome.Pong?
        <==> Verify(i, open) == Returned(true) && IsPing(json)
    ensures Handle(i, open, json, handler, args).outcome.Pong? ==>
        Handle(i, open, json, handler, args) == Call(Pong(Object(map["type" := Number(1.0)])), [])
  {
  }

  /**
   * A verified request that is not a ping and whose tag can be read calls the
   * handler exactly once, with the original arguments, and returns its result.
   */
  lemma DelegatesOtherwise<A, R>(i: Interaction, open: Ed25519Open, json: JsonAccess, handler: A -> R, args: A)
    requires Verify(i, open) == Returned(true)
    requires !IsPing(json) && !TagLookupRaises(json)
    ensures Handle(i, open, json, handler, args) == Call(Delegated(handler(args)), [args])
  {
  }

  /** The request as the web framework presents it; header names are matched exactly. */
  datatype Request = Request(data: seq<byte>, headers: map<string, string>, json: JsonAccess)

  /** An `InteractionVerifier`: the application's public key in hex. */
  datatype InteractionVerifier = InteractionVerifier(clientPublicKey: string)

  const SignatureHeader: string := "X-Signature-Ed25519"
  const TimestampHeader: string := "X-Signature-Timestamp"

  /** `request.headers.get(name)`. */
  function Header(headers: map<string, string>, name: string): (v: Option<string>)
    ensures v.Some? <==> name in headers
    ensures v.Some? ==> v.value == headers[name]
  {
    if name in headers then Some(headers[name]) else None
  }

  /** The `Interaction` that `decorated_function` builds for a request. */
  function InteractionOf(verifier: InteractionVerifier, req: Request): (i: Interaction)
    ensures i.rawBody == req.data
    ensures i.signature == Header(req.headers, SignatureHeader)
    ensures i.timestamp == Header(req.headers, TimestampHeader)
    ensures i.clientPublicKey == verifier.clientPublicKey
  {
    Interaction(req.data, Header(req.headers, SignatureHeader), Header(req.headers, TimestampHeader),
                verifier.clientPublicKey)
  }

  /**
   * `InteractionVerifier(key)(handler)(args)`: the handler is reached only by
   * a request that carries both headers, whose signature checks out against
   * the configured key, and that is not a ping.
   */
  function Decorated<A, R>(verifier: InteractionVerifier, open: Ed25519Open, req: Request, handler: A -> R, args: A)
    : (c: Call<A, R>)
    ensures TimestampHeader !in req.headers ==> c == Call(Propagated(AttributeError), [])
    ensures TimestampHeader in req.headers && SignatureHeader !in req.headers
            ==> c == Call(Rejected(RejectionMessage, RejectionStatus), [])
    ensures |c.handlerCalls| <= 1
    ensures c.handlerCalls != [] ==>
      && c.handlerCalls == [args]
      && c.outcome == Delegated(handler(args))
      && TimestampHeader in req.headers && SignatureHeader in req.headers
      && Hex.FromHex(verifier.clientPublicKey).Some?
      && Hex.FromHex(req.headers[SignatureHeader]).Some?
      && Ed25519Accepts(open, Hex.FromHex(verifier.clientPublicKey).value,
                        SignedMessage(req.headers[TimestampHeader], req.data),
                        Hex.FromHex(req.headers[SignatureHeader]).value)
      && !IsPing(req.json)
  {
    Handle(InteractionOf(verifier, req), open, req.json, handler, args)
  }
}

/**
 * The wire constants the platform defines: interaction kinds
 * (`InteractionType`), response kinds (`InteractionResponseType`) and the
 * response flag bit (`InteractionResponseFlags`), as closed enumerations with
 * their integer codes.
 */
module Constants {
  import opened Wrappers

  /** The kinds of inbound interaction. */
  datatype InteractionType =
    | Ping
    | ApplicationCommand
    | MessageComponent
    | ApplicationCommandAutocomplete
    | ModalSubmit

  /** The kinds of reply. Codes 2 and 3 are not defined. */
  datatype ResponseType =
    | Pong
    | ChannelMessageWithSource
    | DeferredChannelMessageWithSource
    | DeferredUpdateMessage
    | UpdateMessage
    | ApplicationCommandAutocompleteResult
    | Modal

  function InteractionCode(t: InteractionType): (code: int)
    ensures 1 <= code <= 5
    ensures t == Ping <==> code == 1
  {
    match t
    case Ping => 1
    case ApplicationCommand => 2
    case MessageComponent => 3
    case ApplicationCommandAutocomplete => 4
    case ModalSubmit => 5
  }

  function InteractionTypeOf(code: int): (t: Option<InteractionType>)
    ensures t.Some? <==> 1 <= code <= 5
  {
    match code
    case 1 => Some(Ping)
    case 2 => Some(ApplicationCommand)
    case 3 => Some(MessageComponent)
    case 4 => Some(ApplicationCommandAutocomplete)
    case 5 => Some(ModalSubmit)
    case _ => None
  }

  /** Each kind has its own code, and each code 1 to 5 names exactly one kind. */
  lemma InteractionCodeRoundTrip(t: InteractionType, code: int)
    ensures InteractionTypeOf(InteractionCode(t)) == Some(t)
    ensures InteractionTypeOf(code) == Some(t) <==> code == InteractionCode(t)
  {
  }

  function ResponseCode(t: ResponseType): (code: int)
    ensures code in {1, 4, 5, 6, 7, 8, 9}
    ensures t == Pong <==> code == 1
  {
    match t
    case Pong => 1
    case ChannelMessageWithSource => 4
    case DeferredChannelMessageWithSource => 5
    case DeferredUpdateMessage => 6
    case UpdateMessage => 7
    case ApplicationCommandAutocompleteResult => 8
    case Modal => 9
  }

  function ResponseTypeOf(code: int): (t: Option<ResponseType>)
    ensures t.Some? <==> code in {1, 4, 5, 6, 7, 8, 9}
  {
    match code
    case 1 => Some(Pong)
    case 4 => Some(ChannelMessageWithSource)
    case 5 => Some(DeferredChannelMessageWithSource)
    case 6 => Some(DeferredUpdateMessage)
    case 7 => Some(UpdateMessage)
    case 8 => Some(ApplicationCommandAutocompleteResult)
    case 9 => Some(Modal)
    case _ => None
  }

  /** Each reply kind has its own code, and each defined code names exactly one kind. */
  lemma ResponseCodeRoundTrip(t: ResponseType, code: int)
    ensures ResponseTypeOf(ResponseCode(t)) == Some(t)
    ensures ResponseTypeOf(code) == Some(t) <==> code == ResponseCode(t)
  {
  }

  /** Two to the power `n`. */
  function Pow2(n: nat): (r: nat)
    ensures r >= 1
  {
    if n == 0 then 1 else 2 * Pow2(n - 1)
  }

  /** Python's `x << n` on a non-negative integer: the binary digits of `x` moved up by `n` places. */
  function ShiftLeft(x: nat, n: nat): (r: nat)
    ensures r == x * Pow2(n)
  {
    if n == 0 then x
    else
      var r := 2 * ShiftLeft(x, n - 1);
      assert r == x * (2 * Pow2(n - 1));
      r
  }

  /** `InteractionResponseFlags.EPHEMERAL`, i.e. `1 << 6`. */
  const Ephemeral: nat := ShiftLeft(1, 6)

  /** The ephemeral flag is the single bit 6, value 64. */
  lemma EphemeralIsBit6()
    ensures Ephemeral == Pow2(6) == 64
  {
  }
}

/** A concrete `Command` codec that meets the round-trip assumption made of
    encoding/json: the three fields as a form query, in UTF-8. It shows the
    assumption `Faithful` can be met; the FSM does not depend on its format. */
module FormCodec {
  import opened Wrappers
  import opened Errors
  import opened Utf8
  import opened Form
  import opened StateMachine

  function Fields(c: Command): seq<(string, string)>
  {
    [("Operation", c.operation), ("Key", c.key), ("Value", c.value)]
  }

  function MarshalCommand(c: Command): Result<Bytes, Error>
  {
    Success(Utf8.Encode(FormEncode(Fields(c))))
  }

  function UnmarshalCommand(data: Bytes): Result<Command, Error>
  {
    match Utf8.Decode(data)
    case None => Failure(Opaque("invalid UTF-8"))
    case Some(text) =>
      match FormDecode(text)
      case None => Failure(Opaque("malformed command"))
      case Some(ps) =>
        if |ps| == 3 && ps[0].0 == "Operation" && ps[1].0 == "Key" && ps[2].0 == "Value" then
          Success(Command(ps[0].1, ps[1].1, ps[2].1))
        else
          Failure(Opaque("malformed command"))
  }

  function FormCommandCodec(): Codec
  {
    Codec(MarshalCommand, UnmarshalCommand)
  }

  /** One command survives a marshal/unmarshal round trip. */
  lemma UnmarshalMarshal(c: Command)
    ensures UnmarshalCommand(MarshalCommand(c).value) == Success(c)
  {
    var text := FormEncode(Fields(c));
    assert Utf8.Decode(MarshalCommand(c).value) == Some(text) by { DecodeEncode(text); }
    assert FormDecode(text) == Some(Fields(c)) by { FormRoundTrip(Fields(c)); }
  }

  /** Every command survives a marshal/unmarshal round trip through this codec. */
  lemma FormCommandCodecFaithful()
    ensures Faithful(FormCommandCodec())
  {
    var codec := FormCommandCodec();
    forall c: Command | codec.marshal(c).Success?
      ensures codec.unmarshal(codec.marshal(c).value) == Success(c)
    {
      UnmarshalMarshal(c);
    }
  }
}

/** The Message struct shared by both broker versions (v0/im.go:33-39 and
    v1/im.go:32-38), and what one ReadJSON call can yield. */
module Wire {

  datatype Option<T> = None | Some(value: T)

  /** Go's int64 (the At field). */
  newtype int64 = x: int | -0x8000_0000_0000_0000 <= x < 0x8000_0000_0000_0000

  newtype byte = x: int | 0 <= x < 0x100

  /** The fields present in one decoded JSON object. encoding/json leaves a
      field of the target struct untouched when the object does not mention it. */
  datatype Payload = Payload(
    at: Option<int64>,
    device: Option<string>,
    sender: Option<string>,
    mBytes: Option<seq<byte>>,
    receivers: Option<seq<string>>)

  /** Outcome of conn.ReadJSON: a decoded object, or a read/decode error
      (a clean close included). Which one happens is chosen by the peer. */
  datatype ReadResult = Failed | Decoded(payload: Payload)

  /** A pooled *Message: the read loop decodes into it and stamps it in place,
      and the v0 pool reset clears it in place. */
  class Message {
    var at: int64
    var device: string
    var sender: string
    var mBytes: seq<byte>
    var receivers: seq<string>

    /** The pool's New function: a zero-valued &Message{}. */
    constructor ()
      ensures at == 0 && device == "" && sender == "" && mBytes == [] && receivers == []
    {
      at, device, sender, mBytes, receivers := 0, "", "", [], [];
    }

    /** json.Unmarshal into the existing struct: fields present in the payload
        are overwritten, the others keep whatever the object held before. */
    method Decode(p: Payload)
      modifies this
      ensures at == (if p.at.Some? then p.at.value else old(at))
      ensures device == (if p.device.Some? then p.device.value else old(device))
      ensures sender == (if p.sender.Some? then p.sender.value else old(sender))
      ensures mBytes == (if p.mBytes.Some? then p.mBytes.value else old(mBytes))
      ensures receivers == (if p.receivers.Some? then p.receivers.value else old(receivers))
    {
      if p.at.Some? { at := p.at.value; }
      if p.device.Some? { device := p.device.value; }
      if p.sender.Some? { sender := p.sender.value; }
      if p.mBytes.Some? { mBytes := p.mBytes.value; }
      if p.receivers.Some? { receivers := p.receivers.value; }
    }
  }
}

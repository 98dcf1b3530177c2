/** The RELAY message bridge of src/lin.cpp: to_message and from_message. */
module Relay {
  import opened Bytes
  import opened Lin
  import opened Text
  import opened Wrappers

  datatype Protocol = CAN | DDS | LIN | MQTT | RCP | SOMEIP

  /** A relay message; the source's version and timestamp fields play no part in the bridge. */
  datatype Message = Message(
    protocol: Protocol, id: string, payload: seq<byte>, seqNo: nat, meta: map<string, string>)

  const TYPE_KEY: string := "lin.checksum_type"
  const CHECKSUM_KEY: string := "lin.checksum"

  function ToMessage(f: Frame): Message {
    Message(LIN, Decimal(f.id), f.data, 0,
            map[TYPE_KEY := if f.checksumType == Enhanced then "enhanced" else "classic",
                CHECKSUM_KEY := Decimal(f.checksum)])
  }

  /** None stands for ErrInvalidFrame. */
  function FromMessage(m: Message): Option<Frame> {
    var id := ParseUnsigned(m.id, 10);
    if id.None? || id.value > MAX_ID then None
    else
      var ct := if TYPE_KEY in m.meta then m.meta[TYPE_KEY] else "";
      if ct != "" && ct != "classic" && ct != "enhanced" then None
      else
        var printed := if CHECKSUM_KEY in m.meta then ParseUnsigned(m.meta[CHECKSUM_KEY], 10) else None;
        Some(Frame(id.value, m.payload,
                   if printed.Some? then printed.value % 256 else 0,
                   if ct == "enhanced" then Enhanced else Classic))
  }

  /** The bridge gives back every frame with a 6-bit identifier, and refuses exactly the others. */
  lemma BridgeRoundTrip(f: Frame)
    ensures FromMessage(ToMessage(f)) == if f.id <= MAX_ID then Some(f) else None
  {
    hide ParseUnsigned, Decimal;
    ParsePrinted(f.id);
    ParsePrinted(f.checksum);
    KeysDiffer();
  }

  lemma KeysDiffer()
    ensures TYPE_KEY != CHECKSUM_KEY
    ensures "enhanced" != "classic" && "enhanced" != "" && "classic" != ""
  {
    assert |TYPE_KEY| != |CHECKSUM_KEY|;
    assert "enhanced"[0] != "classic"[0];
  }

  /** The message of a frame, field by field. */
  lemma MessageFields(f: Frame)
    ensures var m := ToMessage(f);
      && m.protocol == LIN && m.payload == f.data && m.seqNo == 0
      && ParseUnsigned(m.id, 10) == Some(f.id as nat)
      && m.meta.Keys == {"lin.checksum_type", "lin.checksum"}
      && m.meta["lin.checksum_type"] == (if f.checksumType == Enhanced then "enhanced" else "classic")
      && ParseUnsigned(m.meta["lin.checksum"], 10) == Some(f.checksum as nat)
  {
    hide ParseUnsigned, Decimal;
    ParsePrinted(f.id);
    ParsePrinted(f.checksum);
    KeysDiffer();
  }

  /** A message is refused exactly for a bad identifier or an unknown checksum type; a missing or empty type
      means classic, and a checksum that is missing or unreadable zero. */
  lemma AcceptedIff(m: Message)
    ensures var id := ParseUnsigned(m.id, 10);
      var ct := if "lin.checksum_type" in m.meta then m.meta["lin.checksum_type"] else "";
      var printed := if "lin.checksum" in m.meta then ParseUnsigned(m.meta["lin.checksum"], 10) else None;
      var good := id.Some? && id.value <= 63 && (ct == "" || ct == "classic" || ct == "enhanced");
      && (FromMessage(m).None? <==> !good)
      && (good ==>
           var f := FromMessage(m).value;
           && f.id == id.value && f.data == m.payload
           && (f.checksumType == Enhanced <==> ct == "enhanced")
           && f.checksum == (if printed.Some? then printed.value % 256 else 0))
  {
    hide ParseUnsigned;
    KeysDiffer();
  }
}

/** The bus's calls one by one, each by what its caller gives and gets. */
module BusCalls {
  import opened Bytes
  import opened Lin
  import opened Checksum
  import opened Bus
  import opened Delivery
  import C = Channel

  /** publish: identifiers above 63 are refused first, then everything on a closed bus; empty data removes the
      entry, other data replaces it, with the classic checksum on 0x3C and 0x3D.  No other entry changes. */
  lemma PublishOutcome(responses: map<byte, Entry>, closed: bool, id: byte, data: seq<byte>, ct: ChecksumType, other: byte)
    ensures var r := DoPublish(responses, closed, id, data, ct);
      && (r == Refused(InvalidFrame) <==> id > 63)
      && (r == Refused(BusClosed) <==> id <= 63 && closed)
      && (r.Published? <==> id <= 63 && !closed)
      && (r.Published? ==>
           && (id in r.responses <==> data != [])
           && (data != [] ==>
                r.responses[id] == Entry(data, if id == 0x3C || id == 0x3D then Classic else ct))
           && (other != id ==> (other in r.responses <==> other in responses))
           && (other != id && other in responses ==> r.responses[other] == responses[other]))
  {
  }

  /** send_header: a bad identifier, a closed bus and a missing response are told apart, in this order;
      otherwise the frame carries the registered data and type and the checksum that verifies. */
  lemma HeaderOutcome(responses: map<byte, Entry>, closed: bool, id: byte)
    ensures var r := Exchange(responses, closed, id);
      && (r == Failed(InvalidFrame) <==> id > 63)
      && (r == Failed(BusClosed) <==> id <= 63 && closed)
      && (r == Failed(NoResponse) <==> id <= 63 && !closed && id !in responses)
      && (r.Exchanged? <==> id <= 63 && !closed && id in responses)
      && (r.Exchanged? ==>
           && r.frame.id == id && r.frame.data == responses[id].data
           && r.frame.checksumType == responses[id].checksumType
           && ParityOk(ProtectId(id)) && ProtectId(id) % 64 == id
           && VerifyChecksum(ProtectId(id), r.frame.data, r.frame.checksum, r.frame.checksumType))
  {
    hide ProtectId, ChecksumOf, ParityOk;
    ProtectIdParity(id);
  }

  /** subscribe: an open bus gets one more port with the given filters and policy, an empty open channel of
      the given depth, or of 64 if that is not positive; the others stay.  A closed bus counts an error. */
  lemma SubscribeOutcome(s: State, filters: seq<Filter>, policy: Policy, depth: int)
    requires Enabled(s, Subscribe(filters, policy, depth))
    ensures var s' := Apply(s, Subscribe(filters, policy, depth));
      if s.closed then s' == s.(errors := s.errors + 1)
      else
        && |s'.ports| == |s.ports| + 1 && s'.ports[..|s.ports|] == s.ports
        && var port := s'.ports[|s.ports|];
           && port.filters == filters && port.policy == policy
           && port.chan.capacity == (if depth > 0 then depth else 64)
           && port.chan.buf == [] && !port.chan.closed && port.chan.waiters == map[]
  {
  }

  /** close: every channel is closed, the second time nothing happens. */
  lemma CloseOutcome(s: State)
    requires Enabled(s, Event.Close)
    ensures var s' := Apply(s, Event.Close);
      && s'.closed && |s'.ports| == |s.ports|
      && (s.closed ==> s' == s)
      && (!s.closed ==> forall p :: 0 <= p < |s.ports| ==>
           s'.ports[p].chan.closed && s'.ports[p].chan.buf == s.ports[p].chan.buf
           && s'.ports[p].filters == s.ports[p].filters)
  {
  }

  /** What each channel answer counts as, by policy. */
  lemma CountedAs(policy: Policy, result: C.SendResult)
    ensures CountFor(policy, result) == Delivered <==> policy == Block || result == C.Ok
    ensures CountFor(policy, result) == Dropped <==>
      (policy == DropNewest && result == C.Full) || (policy == DropOldest && result == C.Evicted)
  {
  }
}

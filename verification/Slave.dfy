/** The slave's response index of src/slave/node.cpp, and its agreement with the bus's response table. */
module Slave {
  import opened Wrappers
  import opened Bytes
  import opened Lin
  import opened Bus
  import opened BusRuns
  import opened BusObject

  // ---- The index ----

  ghost predicate NoDuplicates(ids: seq<byte>) {
    forall i, j :: 0 <= i < j < |ids| ==> ids[i] != ids[j]
  }

  /** The position of id, or the length. */
  function IndexOf(ids: seq<byte>, id: byte): (k: nat)
    ensures k <= |ids| && id !in ids[..k]
    ensures k < |ids| ==> ids[k] == id
  {
    if ids == [] || ids[0] == id then 0 else 1 + IndexOf(ids[1..], id)
  }

  function Indexed(ids: seq<byte>, id: byte, data: seq<byte>): seq<byte> {
    var k := IndexOf(ids, id);
    if data == [] then if k < |ids| then ids[..k] + ids[k + 1..] else ids
    else if k == |ids| then ids + [id] else ids
  }

  /** No identifier twice, and exactly those of the table. */
  ghost predicate Agrees(ids: seq<byte>, responses: map<byte, Entry>) {
    NoDuplicates(ids) && forall id: byte :: id in ids <==> id in responses
  }

  /** Every table entry has a 6-bit identifier and data, and diagnostic ones are classic. */
  ghost predicate TableInv(responses: map<byte, Entry>) {
    forall id :: id in responses ==>
      id <= MAX_ID && responses[id].data != [] && (IsDiagnostic(id) ==> responses[id].checksumType == Classic)
  }

  lemma IndexedKeepsDistinct(ids: seq<byte>, id: byte, data: seq<byte>)
    requires NoDuplicates(ids)
    ensures NoDuplicates(Indexed(ids, id, data))
  {
    var k := IndexOf(ids, id);
    assert forall i :: 0 <= i < k ==> ids[..k][i] == ids[i];
  }

  lemma IndexedMembers(ids: seq<byte>, id: byte, data: seq<byte>, other: byte)
    requires NoDuplicates(ids)
    ensures other in Indexed(ids, id, data) <==> if other == id then data != [] else other in ids
  {
    var k := IndexOf(ids, id);
    if k < |ids| {
      assert ids == ids[..k] + [ids[k]] + ids[k + 1..];
    } else {
      assert ids[..k] == ids;
    }
  }

  lemma IndexedAgrees(ids: seq<byte>, responses: map<byte, Entry>, id: byte, data: seq<byte>)
    requires Agrees(ids, responses)
    ensures var r := DoPublish(responses, false, id, data, Enhanced);
            r.Published? ==> Agrees(Indexed(ids, id, data), r.responses)
  {
    hide Indexed, NoDuplicates;
    IndexedKeepsDistinct(ids, id, data);
    forall other: byte
      ensures other in Indexed(ids, id, data) <==> if other == id then data != [] else other in ids
    {
      IndexedMembers(ids, id, data, other);
    }
  }

  lemma PublishKeepsTable(responses: map<byte, Entry>, closed: bool, id: byte, data: seq<byte>, ct: ChecksumType)
    requires TableInv(responses)
    ensures var r := DoPublish(responses, closed, id, data, ct); r.Published? ==> TableInv(r.responses)
  {
  }

  // ---- Runs ----

  /** The bus with one slave, the only one to publish. */
  datatype System = System(bus: State, ids: seq<byte>)

  datatype SystemEvent = SetResponse(id: byte, data: seq<byte>) | BusStep(e: Event)

  predicate CanHappen(s: System, e: SystemEvent) {
    match e
    case SetResponse(id, data) => id <= MAX_ID ==> Enabled(s.bus, Publish(id, data, Enhanced))
    case BusStep(be) => !be.Publish? && Enabled(s.bus, be)
  }

  function After(s: System, e: SystemEvent): System
    requires CanHappen(s, e)
  {
    match e
    case SetResponse(id, data) =>
      if id > MAX_ID then s
      else
        System(Apply(s.bus, Publish(id, data, Enhanced)),
               if s.bus.closed then s.ids else Indexed(s.ids, id, data))
    case BusStep(be) => s.(bus := Apply(s.bus, be))
  }

  ghost predicate IsSystemRun(states: seq<System>, events: seq<SystemEvent>) {
    && |states| == |events| + 1
    && states[0] == System(INITIAL, [])
    && forall i :: 0 <= i < |events| ==> CanHappen(states[i], events[i]) && states[i + 1] == After(states[i], events[i])
  }

  lemma OnlyPublishChangesTable(s: State, e: Event)
    requires Enabled(s, e) && !e.Publish?
    ensures Apply(s, e).responses == s.responses
  {
    hide OfferTo, CloseAll, Exchange, HeadersAfterOffer;
  }

  lemma EventKeepsAgreement(s: System, e: SystemEvent)
    requires CanHappen(s, e) && Agrees(s.ids, s.bus.responses) && TableInv(s.bus.responses)
    ensures Agrees(After(s, e).ids, After(s, e).bus.responses) && TableInv(After(s, e).bus.responses)
  {
    hide Agrees, TableInv, Indexed;
    match e
    case SetResponse(id, data) =>
      IndexedAgrees(s.ids, s.bus.responses, id, data);
      PublishKeepsTable(s.bus.responses, s.bus.closed, id, data, Enhanced);
    case BusStep(be) =>
      OnlyPublishChangesTable(s.bus, be);
  }

  /** In every reachable state the slave's index and the bus's table agree. */
  lemma {:induction false} AlwaysAgrees(states: seq<System>, events: seq<SystemEvent>, n: nat)
    requires IsSystemRun(states, events) && n < |states|
    ensures Agrees(states[n].ids, states[n].bus.responses) && TableInv(states[n].bus.responses)
  {
    hide Agrees, TableInv, After, CanHappen;
    if n == 0 {
      NothingRegistered();
    } else {
      AlwaysAgrees(states, events, n - 1);
      EventKeepsAgreement(states[n - 1], events[n - 1]);
    }
  }

  lemma NothingRegistered()
    ensures Agrees([], INITIAL.responses) && TableInv(INITIAL.responses)
  {
  }

  // ---- The node ----

  class Node {
    const bus: VirtualBus
    var ids: seq<byte>

    constructor (bus: VirtualBus)
      ensures this.bus == bus && ids == []
    {
      this.bus := bus;
      ids := [];
    }

    method SetResponse(id: byte, data: seq<byte>) returns (error: Option<Error>)
      requires Inv(bus.Now()) && CanHappen(System(bus.Now(), ids), SystemEvent.SetResponse(id, data))
      requires Agrees(ids, bus.responses)
      modifies this`ids, bus
      ensures Inv(bus.Now()) && Agrees(ids, bus.responses)
      ensures System(bus.Now(), ids) == After(old(System(bus.Now(), ids)), SystemEvent.SetResponse(id, data))
      ensures error == if id > MAX_ID then Some(InvalidFrame)
                       else if old(bus.closed) then Some(BusClosed)
                       else None
    {
      hide Inv, Agrees;
      if id > MAX_ID {
        return Some(InvalidFrame);
      }
      IndexedAgrees(ids, bus.responses, id, data);
      error := bus.DoPublish(id, data, Enhanced);
      if error.Some? {
        return;
      }
      var k := IndexOf(ids, id);
      if data == [] {
        if k < |ids| {
          ids := ids[..k] + ids[k + 1..];
        }
      } else if k == |ids| {
        ids := ids + [id];
      }
    }
  }

  /** A new identifier goes to the end of the index, one that is taken out leaves the others in order, and
      nothing else changes it. */
  lemma IndexOrder(ids: seq<byte>, id: byte, data: seq<byte>)
    ensures data != [] && id !in ids ==> Indexed(ids, id, data) == ids + [id]
    ensures data != [] && id in ids ==> Indexed(ids, id, data) == ids
    ensures data == [] && id !in ids ==> Indexed(ids, id, data) == ids
  {
  }

  lemma IndexWithout(a: seq<byte>, id: byte, b: seq<byte>)
    requires id !in a
    ensures Indexed(a + [id] + b, id, []) == a + b
  {
    var ids := a + [id] + b;
    assert ids[|a|] == id;
    assert forall j :: 0 <= j < |a| ==> ids[j] == a[j];
    assert ids[..|a|] == a && ids[|a| + 1..] == b;
  }
}

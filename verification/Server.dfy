/** The HTTP handlers over a watchable store (server/server.go:112-232, server/watch.go:90-110). */
module HttpServer {
  import opened Wrappers
  import opened Entries
  import opened BoltStores
  import opened History
  import opened WatchableStores
  import opened ConfigKeys
  import opened Sdk
  import opened Deliveries

  datatype Verb = GET | PUT | DELETE | OTHER

  datatype Reply = Reply(status: nat, revision: nat, configs: seq<Entry>)

  const MAX_BODY: nat := 0x10_0000

  /** The body as the handler reads it: what exceeds the limit is dropped without an error. */
  function ReadBody(body: string): (v: Value)
    ensures |body| <= 1_048_576 ==> v == body
    ensures |body| > 1_048_576 ==> |v| == 1_048_576 && v <= body
  {
    body[..Min(|body|, MAX_BODY)]
  }

  function Refused(status: nat): Reply {
    Reply(status, 0, [])
  }

  /**
    Dispatches a request on a path. A put answers 201 exactly when nothing was
    live under its key, and 200 when it replaced an entry (section 4.3.4 of
    RFC 7231); a delete or get answers 404 exactly when nothing was.
   */
  method HandleConfig(ws: WatchableStore, verb: Verb, path: string, body: string, fault: Fault) returns (reply: Reply)
    requires ws.Valid()
    modifies ws.bs, ws.wc, ws.wc.buf
    ensures ws.Valid()
    ensures var p := ParsePath(path);
            var key := StoreKey(p);
            match verb
            case GET =>
              && ws.bs.State() == old(ws.bs.State()) && ws.wc.history == old(ws.wc.history)
              && (if p.name == "" then
                    && reply.status == 200 && reply.revision == ws.bs.rev
                    && IsListing(ws.bs.disk.data, ListPrefix(p.tenant, p.namespace), reply.configs)
                  else if key in ws.bs.disk.data then reply == Reply(200, ws.bs.rev, [ws.bs.disk.data[key]])
                  else reply == Refused(404))
            case PUT =>
              if p.name == "" then
                reply == Refused(400) && ws.bs.State() == old(ws.bs.State()) && ws.wc.history == old(ws.wc.history)
              else if fault == NoFault then
                && ws.Ledger() == Record(old(ws.Ledger()), OpPut(key, ReadBody(body)))
                && reply == Reply(if key in old(ws.bs.disk.data) then 200 else 201,
                                  ws.bs.rev, [NewEntry(old(ws.bs.Db()), key, ReadBody(body))])
              else
                reply == Refused(500) && ws.bs.disk == old(ws.bs.disk) && ws.wc.history == old(ws.wc.history)
            case DELETE =>
              if p.name == "" then
                reply == Refused(400) && ws.bs.State() == old(ws.bs.State()) && ws.wc.history == old(ws.wc.history)
              else if key !in old(ws.bs.disk.data) then
                reply == Refused(404) && ws.bs.State() == old(ws.bs.State()) && ws.wc.history == old(ws.wc.history)
              else if fault == NoFault then
                && ws.Ledger() == Record(old(ws.Ledger()), OpDelete(key))
                && reply == Reply(200, ws.bs.rev, [old(ws.bs.disk.data)[key].(revision := ws.bs.rev)])
              else
                reply == Refused(500) && ws.bs.disk == old(ws.bs.disk) && ws.wc.history == old(ws.wc.history)
            case OTHER =>
              reply == Refused(405) && ws.bs.State() == old(ws.bs.State()) && ws.wc.history == old(ws.wc.history)
  {
    var p := ParsePath(path);
    var key := StoreKey(p);
    match verb {
      case GET =>
        if p.name == "" {
          var entries := ws.bs.List(ListPrefix(p.tenant, p.namespace));
          var rev := ws.bs.Rev();
          return Reply(200, rev, entries);
        }
        var got := ws.bs.Get(key);
        if got.Failure? {
          return Refused(404);
        }
        var rev := ws.bs.Rev();
        return Reply(200, rev, [got.value]);
      case PUT =>
        if p.name == "" {
          return Refused(400);
        }
        var put := ws.Put(key, ReadBody(body), fault);
        if put.Failure? {
          return Refused(500);
        }
        var status := 200;
        if put.value.prev.None? {
          status := 201;
        }
        return Reply(status, put.value.entry.revision, [put.value.entry]);
      case DELETE =>
        if p.name == "" {
          return Refused(400);
        }
        var deleted := ws.Delete(key, fault);
        if deleted.Failure? {
          return Refused(if deleted.error == KeyNotFound then 404 else 500);
        }
        var rev := ws.bs.Rev();
        return Reply(200, rev, [deleted.value]);
      case OTHER =>
        return Refused(405);
    }
  }

  /** The events of a watch reply, in order; what the client makes of them is what they did to the store. */
  method EncodeEvents(events: seq<Event>) returns (wire: seq<WireEvent>)
    ensures |wire| == |events|
    ensures forall i | 0 <= i < |wire| ::
              && wire[i].kind == (if events[i].kind.EventPut? then "PUT" else "DELETE")
              && wire[i].entry == events[i].entry && wire[i].prev == events[i].prev
    ensures WireOps(wire) == OpsFor(events)
  {
    var watchEvents := new WireEvent[|events|];
    var i := 0;
    while i < |events|
      invariant 0 <= i <= |events|
      invariant forall j | 0 <= j < i :: watchEvents[j] == Encode(events[j])
    {
      watchEvents[i] := Encode(events[i]);
      i := i + 1;
    }
    wire := watchEvents[..];
    forall j | 0 <= j < |events|
      ensures WireOp(wire[j]) == OpFor(events[j])
    {
      WireKeepsMeaning(events[j]);
    }
  }
}

/** The relay itself: the registry of connected clients with their receive buffers, the
    counter that hands out ids, and everything written to each accepted socket. The three
    socket events (a connection arrives, data arrives, a connection closes) are methods that
    update this state step by step, as the event handlers do. */
module Server {
  import opened Wrappers
  import opened Text
  import opened Framing
  import opened Json
  import opened Protocol

  /** The clients a fan-out loop writes to: every registered id except the one it skips. */
  function Targets(ids: set<Id>, skip: Option<Id>): (r: set<Id>)
    ensures r <= ids
  {
    if skip.Some? then ids - {skip.value} else ids
  }

  /** The state the relay keeps between two socket events: every id issued so far has an
      outbox and no other id has one; the registered clients are among them; and no buffer
      holds a line feed, since every complete line has been handled. */
  ghost predicate Consistent(nextId: nat, clients: map<Id, string>, sent: Outboxes) {
    && nextId >= 1
    && sent.Keys == Issued(nextId)
    && clients.Keys <= sent.Keys
    && forall id | id in clients :: '\n' !in clients[id]
  }

  /** Writing to registered clients keeps the state consistent. */
  lemma FanoutKeeps(nextId: nat, clients: map<Id, string>, sent: Outboxes, to: set<Id>, e: Event)
    requires Consistent(nextId, clients, sent)
    ensures Consistent(nextId, clients, Fanout(sent, to, e))
  {
  }

  /** Accepting a connection keeps the state consistent, and the new id has no outbox yet. */
  lemma ConnectKeeps(nextId: nat, clients: map<Id, string>, sent: Outboxes)
    requires Consistent(nextId, clients, sent)
    ensures var id := IdOf(nextId);
            && id !in sent
            && Consistent(nextId + 1, clients[id := ""], sent[id := [Welcome(id)]])
  {
    FreshId(nextId, nextId);
  }

  /** Handling data from a registered client keeps the state consistent when the outboxes
      stay the same sockets and the new buffer holds no line feed. */
  lemma ReceiveKeeps(nextId: nat, clients: map<Id, string>, sent: Outboxes, id: Id, rest: string, after: Outboxes)
    requires Consistent(nextId, clients, sent)
    requires id in clients && '\n' !in rest && after.Keys == sent.Keys
    ensures Consistent(nextId, clients[id := rest], after)
  {
  }

  /** Closing a connection keeps the state consistent. */
  lemma CloseKeeps(nextId: nat, clients: map<Id, string>, sent: Outboxes, id: Id)
    requires Consistent(nextId, clients, sent)
    ensures Consistent(nextId, clients - {id}, Fanout(sent, clients.Keys - {id}, Leave(id)))
  {
  }

  /** Two registries with the same ids that agree everywhere except at `id`. */
  lemma OnlyOneChanged(now: map<Id, string>, before: map<Id, string>, id: Id)
    requires id in now && now.Keys == before.Keys
    requires forall k | k in now && k != id :: now[k] == before[k]
    ensures now == before[id := now[id]]
  {
  }

  class Relay {
    /** The counter the next connection's id is spelled from. */
    var nextId: nat
    /** The registered clients, each with the text received but not yet cut into lines. */
    var clients: map<Id, string>
    /** Everything written so far to each socket ever accepted, registered or not. */
    var sent: Outboxes

    ghost predicate Valid()
      reads this
    {
      Consistent(nextId, clients, sent)
    }

    /** A relay that has accepted nothing yet. */
    constructor ()
      ensures Valid()
      ensures nextId == 1 && clients == map[] && sent == map[]
    {
      nextId := 1;
      clients := map[];
      sent := map[];
      assert Issued(1) == {};
    }

    /** Writes one JSON line to the socket of `to`. A failing write is swallowed, so a write
        has no other effect on the relay. */
    method Send(to: Id, e: Event)
      requires to in sent
      modifies this
      ensures sent == old(sent)[to := old(sent)[to] + [e]]
      ensures clients == old(clients) && nextId == old(nextId)
    {
      sent := sent[to := sent[to] + [e]];
    }

    /** Writes `e` to every registered client except `skip`, one client at a time. */
    method Broadcast(e: Event, skip: Option<Id>)
      requires clients.Keys <= sent.Keys
      modifies this
      ensures sent == Fanout(old(sent), Targets(clients.Keys, skip), e)
      ensures clients == old(clients) && nextId == old(nextId)
    {
      ghost var start := sent;
      var todo := clients.Keys;
      ghost var reached: set<Id> := {};
      FanoutNone(start, e);
      while todo != {}
        invariant clients == old(clients) && nextId == old(nextId)
        invariant todo <= clients.Keys && reached <= clients.Keys
        invariant forall k | k in clients.Keys :: k in reached <==> k !in todo && skip != Some(k)
        invariant sent == Fanout(start, reached, e)
        decreases |todo|
      {
        var other :| other in todo;
        todo := todo - {other};
        if skip == Some(other) {
          continue;
        }
        FanoutAdd(start, reached, other, e);
        reached := reached + {other};
        Send(other, e);
      }
      assert reached == Targets(clients.Keys, skip);
    }

    /** Takes the id spelled from the counter, which moves on, registers the connection
        with an empty buffer and tells it its id. */
    method Accept() returns (id: Id)
      requires Valid()
      modifies this
      ensures id == IdOf(old(nextId)) && nextId == old(nextId) + 1
      ensures id !in old(sent)
      ensures clients == old(clients)[id := ""]
      ensures sent == old(sent)[id := [Welcome(id)]]
      ensures Valid()
    {
      ConnectKeeps(nextId, clients, sent);
      id := IdOf(nextId);
      nextId := nextId + 1;
      sent := sent[id := []];
      clients := clients[id := ""];
      Send(id, Welcome(id));
      assert [] + [Welcome(id)] == [Welcome(id)];
    }

    /** A connection arrives: it is accepted, then every other registered client is told it
        joined. The id was never issued before, so no outbox already had it. */
    method Connect() returns (id: Id)
      requires Valid()
      modifies this
      ensures id == IdOf(old(nextId)) && nextId == old(nextId) + 1
      ensures id !in old(sent)
      ensures clients == old(clients)[id := ""]
      ensures sent == Fanout(old(sent), old(clients).Keys, Join(id))[id := [Welcome(id)]]
      ensures forall k | k in old(sent) && k !in clients :: sent[k] == old(sent)[k]
      ensures Valid()
    {
      id := Accept();
      assert Targets(clients.Keys, Some(id)) == old(clients).Keys;
      FanoutSkips(old(sent), old(clients).Keys, id, [Welcome(id)], Join(id));
      FanoutKeeps(nextId, clients, sent, old(clients).Keys, Join(id));
      Broadcast(Join(id), Some(id));
    }

    /** Handles one complete line from the registered client `id`, as the body of the receive
        loop does: the line is trimmed; a blank line or one that is not JSON is skipped; an
        update is relayed to every other registered client and a ping is answered to the
        sender, both stamped `ts`; any other message is ignored. */
    method HandleLine(id: Id, segment: string, parse: string -> Option<Value>, ts: int)
      requires id in clients && clients.Keys <= sent.Keys
      modifies this
      ensures sent == Handle(old(sent), clients.Keys, id, Decode(segment, parse), ts)
      ensures clients == old(clients) && nextId == old(nextId)
    {
      var line := Trim(segment);
      if line == [] {
        SkippedLineWritesNothing(sent, clients.Keys, id, segment, parse, ts);
        return;
      }
      var parsed := parse(line);
      if parsed.None? {
        SkippedLineWritesNothing(sent, clients.Keys, id, segment, parse, ts);
        return;
      }
      var msg := parsed.value;
      if Get(msg, "type") == Some(Str("update")) {
        UpdateRelayed(sent, clients.Keys, id, segment, parse, ts, msg);
        assert Targets(clients.Keys, Some(id)) == clients.Keys - {id};
        Broadcast(Update(id, Get(msg, "pos"), Get(msg, "vel"), ts), Some(id));
      } else if Get(msg, "type") == Some(Str("ping")) {
        PingAnswered(sent, clients.Keys, id, segment, parse, ts, msg);
        Send(id, Pong(ts));
      } else {
        SkippedLineWritesNothing(sent, clients.Keys, id, segment, parse, ts);
      }
    }

    /** Data arrives from the connection `id`. If it is no longer registered, nothing
        happens. Otherwise the data is appended to its buffer and every complete line is cut
        off and handled in turn, the `n`-th with the clock reading `clock(n)`, until no line
        feed is left; what follows the last line feed stays buffered. `parse` stands for
        `JSON.parse`, giving nothing where it throws. */
    method Receive(id: Id, chunk: string, parse: string -> Option<Value>, clock: nat -> int)
      requires Valid()
      modifies this
      ensures Valid()
      ensures nextId == old(nextId)
      ensures id !in old(clients) ==> clients == old(clients) && sent == old(sent)
      ensures id in old(clients) ==>
                var cut := Split(old(clients)[id] + chunk);
                && clients == old(clients)[id := cut.rest]
                && sent == HandleAll(old(sent), old(clients).Keys, id, Requests(cut.lines, parse), clock, 0)
      ensures forall k | k in old(sent) && k !in clients :: sent[k] == old(sent)[k]
    {
      if id !in clients {
        return;
      }
      ghost var peers := clients.Keys;
      ghost var whole := clients[id] + chunk;
      clients := clients[id := clients[id] + chunk];
      var n: nat := 0;
      while IndexOf(clients[id], '\n') >= 0
        invariant id in clients && clients.Keys == peers
        invariant forall k | k in clients && k != id :: clients[k] == old(clients)[k]
        invariant nextId == old(nextId) && sent.Keys == old(sent).Keys
        invariant Split(clients[id]).rest == Split(whole).rest
        invariant HandleAll(sent, peers, id, Requests(Split(clients[id]).lines, parse), clock, n)
                  == HandleAll(old(sent), peers, id, Requests(Split(whole).lines, parse), clock, 0)
        decreases |clients[id]|
      {
        var idx := IndexOf(clients[id], '\n');
        ghost var buffer := clients[id];
        ghost var before := sent;
        var segment := clients[id][..idx];
        clients := clients[id := clients[id][idx + 1..]];
        assert clients.Keys == peers;
        HandleLine(id, segment, parse, clock(n));
        assert segment == buffer[..idx];
        assert sent == Handle(before, peers, id, Decode(segment, parse), clock(n));
        HandleFirstLine(before, sent, peers, id, buffer, idx, parse, clock, n);
        n := n + 1;
      }
      ghost var rest := clients[id];
      assert Split(rest) == Cut([], rest);
      OnlyOneChanged(clients, old(clients), id);
      HandleAllOnlyPeers(old(sent), peers, id, Requests(Split(whole).lines, parse), clock, 0);
      ReceiveKeeps(nextId, old(clients), old(sent), id, rest, sent);
    }

    /** A connection closes: it is removed from the registry and every client still
        registered is told it left. */
    method Close(id: Id)
      requires Valid()
      modifies this
      ensures nextId == old(nextId)
      ensures clients == old(clients) - {id}
      ensures sent == Fanout(old(sent), old(clients).Keys - {id}, Leave(id))
      ensures forall k | k in old(sent) && k !in clients :: sent[k] == old(sent)[k]
      ensures Valid()
    {
      CloseKeeps(nextId, clients, sent, id);
      clients := clients - {id};
      Broadcast(Leave(id), None);
    }
  }
}

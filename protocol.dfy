/** What the relay does with the lines a connection sends, as functions of the outboxes:
    connection ids, the events the server writes, how a line is read as a request, and
    the effect of one line and of a sequence of lines on every socket's outbox. */
module Protocol {
  import opened Wrappers
  import opened Text
  import opened Framing
  import opened Json

  /** A connection id: the decimal spelling of the counter value it was issued from. */
  type Id = string

  /** One JSON line the server writes to a socket. `pos` and `vel` are copied from the
      sender's message as they are; None stands for a field the sender left out, which
      `JSON.stringify` then omits. */
  datatype Event =
    | Welcome(id: Id)
    | Join(id: Id)
    | Update(id: Id, pos: Option<Value>, vel: Option<Value>, ts: int)
    | Pong(ts: int)
    | Leave(id: Id)

  /** Everything written so far to each socket the server accepted, keyed by the socket's id. */
  type Outboxes = map<Id, seq<Event>>

  /** `String(n)`, the id handed to the connection accepted when the counter was `n`. */
  function IdOf(n: nat): Id {
    Decimal(n)
  }

  /** The ids handed out while the counter went from 1 up to `next - 1`. */
  function Issued(next: nat): set<Id>
    decreases next
  {
    if next <= 1 then {} else Issued(next - 1) + {IdOf(next - 1)}
  }

  /** Exactly the ids spelled from a counter value below `next` have been handed out. */
  lemma {:induction false} IssuedSpelled(next: nat, id: Id)
    ensures id in Issued(next) <==> exists n: nat | 1 <= n < next :: id == IdOf(n)
    decreases next
  {
    if next > 1 {
      IssuedSpelled(next - 1, id);
    }
  }

  /** Counter values that differ give ids that differ, so no id is ever issued twice. */
  lemma IdsDistinct(a: nat, b: nat)
    requires a != b
    ensures IdOf(a) != IdOf(b)
  {
    if IdOf(a) == IdOf(b) {
      DecimalInjective(a, b);
    }
  }

  /** The id for the current counter value, or any later one, has not been handed out. */
  lemma {:induction false} FreshId(next: nat, later: nat)
    requires next <= later
    ensures IdOf(later) !in Issued(next)
    decreases next
  {
    if next > 1 {
      FreshId(next - 1, later);
      IdsDistinct(next - 1, later);
    }
  }

  /** One copy of `e` written to each socket in `to`; every other outbox untouched. */
  function Fanout(sent: Outboxes, to: set<Id>, e: Event): (r: Outboxes)
    ensures r.Keys == sent.Keys
  {
    map k | k in sent :: if k in to then sent[k] + [e] else sent[k]
  }

  /** A fan-out to one socket appends to that socket's outbox alone. */
  lemma FanoutOne(sent: Outboxes, to: Id, e: Event)
    requires to in sent
    ensures Fanout(sent, {to}, e) == sent[to := sent[to] + [e]]
  {
    assert Fanout(sent, {to}, e).Keys == sent[to := sent[to] + [e]].Keys;
  }

  /** A fan-out to nobody changes nothing. */
  lemma FanoutNone(sent: Outboxes, e: Event)
    ensures Fanout(sent, {}, e) == sent
  {
  }

  /** Replacing an outbox the fan-out skips commutes with the fan-out. */
  lemma FanoutSkips(sent: Outboxes, to: set<Id>, k: Id, v: seq<Event>, e: Event)
    requires k !in to
    ensures Fanout(sent[k := v], to, e) == Fanout(sent, to, e)[k := v]
  {
    assert Fanout(sent[k := v], to, e).Keys == Fanout(sent, to, e)[k := v].Keys;
  }

  /** Adding one more socket to a fan-out appends to that socket's outbox alone. */
  lemma FanoutAdd(sent: Outboxes, to: set<Id>, k: Id, e: Event)
    requires k in sent && k !in to
    ensures Fanout(sent, to + {k}, e) == Fanout(sent, to, e)[k := sent[k] + [e]]
  {
    assert Fanout(sent, to + {k}, e).Keys == Fanout(sent, to, e)[k := sent[k] + [e]].Keys;
  }

  /** What a complete line asks of the server once it is trimmed and parsed. `Skip` covers
      a blank line, a line that is not JSON and a message of any other type. */
  datatype Request = Skip | UpdateRequest(pos: Option<Value>, vel: Option<Value>) | PingRequest

  /** Reads one complete line: it is trimmed; a blank one is skipped; otherwise it is parsed,
      and a line that does not parse is skipped; otherwise the message's `type` decides. */
  function Decode(segment: string, parse: string -> Option<Value>): Request {
    var line := Trim(segment);
    if line == [] then Skip
    else match parse(line)
      case None => Skip
      case Some(msg) =>
        if Get(msg, "type") == Some(Str("update")) then UpdateRequest(Get(msg, "pos"), Get(msg, "vel"))
        else if Get(msg, "type") == Some(Str("ping")) then PingRequest
        else Skip
  }

  /** What reading a line can end in when `msg.type` is evaluated as written. */
  datatype Outcome = Crash | Decoded(request: Request)

  /** `Decode` as written: `msg.type` is read outside the guard around `JSON.parse`, so a
      line whose JSON is `null` raises a TypeError that nothing catches. */
  function DecodeAsWritten(segment: string, parse: string -> Option<Value>): Outcome {
    var line := Trim(segment);
    if line == [] then Decoded(Skip)
    else match parse(line)
      case None => Decoded(Skip)
      case Some(msg) =>
        match ReadAsWritten(msg, "type")
        case Thrown => Crash
        case Undefined => Decoded(Skip)
        case Found(kind) =>
          if kind == Str("update") then
            Decoded(UpdateRequest(Get(msg, "pos"), Get(msg, "vel")))
          else if kind == Str("ping") then Decoded(PingRequest)
          else Decoded(Skip)
  }

  /** The line `null` (or any line that parses to `null`) crashes the server as written. */
  lemma NullLineCrashes(segment: string, parse: string -> Option<Value>)
    requires Trim(segment) != [] && parse(Trim(segment)) == Some(Null)
    ensures DecodeAsWritten(segment, parse) == Crash
  {
  }

  /** The corrected reading skips such a line like any other message without a type, so it
      writes nothing and the lines after it are still handled. */
  lemma NullLineSkipped(sent: Outboxes, peers: set<Id>, self: Id, segment: string,
                        parse: string -> Option<Value>, ts: int)
    requires Trim(segment) != [] && parse(Trim(segment)) == Some(Null)
    ensures Decode(segment, parse) == Skip
    ensures Handle(sent, peers, self, Decode(segment, parse), ts) == sent
  {
  }

  /** On every other line the corrected reading is the one written. */
  lemma DecodeAgreesAwayFromNull(segment: string, parse: string -> Option<Value>)
    requires Trim(segment) == [] || parse(Trim(segment)) != Some(Null)
    ensures DecodeAsWritten(segment, parse) == Decoded(Decode(segment, parse))
  {
    var line := Trim(segment);
    if line != [] && parse(line).Some? {
      GetAgreesAwayFromNull(parse(line).value, "type");
    }
  }

  /** The requests the complete lines `segments` make, in order. */
  function Requests(segments: seq<string>, parse: string -> Option<Value>): (r: seq<Request>)
    ensures |r| == |segments|
    decreases |segments|
  {
    if segments == [] then [] else [Decode(segments[0], parse)] + Requests(segments[1..], parse)
  }

  /** The requests of two groups of lines are those of the first, then those of the second. */
  lemma {:induction false} RequestsAppend(l1: seq<string>, l2: seq<string>, parse: string -> Option<Value>)
    ensures Requests(l1 + l2, parse) == Requests(l1, parse) + Requests(l2, parse)
    decreases |l1|
  {
    if l1 == [] {
      assert l1 + l2 == l2;
    } else {
      assert (l1 + l2)[0] == l1[0];
      assert (l1 + l2)[1..] == l1[1..] + l2;
      RequestsAppend(l1[1..], l2, parse);
    }
  }

  /** The effect of one request from `self` on the outboxes while `peers` are registered,
      with `ts` read from the clock: an update goes to every other peer, a ping is answered
      to the sender, anything else writes nothing. */
  function Handle(sent: Outboxes, peers: set<Id>, self: Id, req: Request, ts: int): (r: Outboxes)
    ensures r.Keys == sent.Keys
  {
    match req
    case Skip => sent
    case UpdateRequest(pos, vel) => Fanout(sent, peers - {self}, Update(self, pos, vel, ts))
    case PingRequest => Fanout(sent, {self}, Pong(ts))
  }

  /** The effect of the requests `reqs` from `self`, handled in order; the request at
      position `n` is stamped `clock(from + n)`. */
  function HandleAll(sent: Outboxes, peers: set<Id>, self: Id, reqs: seq<Request>, clock: nat -> int, from: nat)
    : Outboxes
    decreases |reqs|
  {
    if reqs == [] then sent
    else HandleAll(Handle(sent, peers, self, reqs[0], clock(from)), peers, self, reqs[1..], clock, from + 1)
  }

  /** A blank line, a line that is not JSON, or a message of another type writes nothing. */
  lemma SkippedLineWritesNothing(sent: Outboxes, peers: set<Id>, self: Id, segment: string,
                                 parse: string -> Option<Value>, ts: int)
    requires || AllSpace(segment)
             || parse(Trim(segment)) == None
             || (var msg := parse(Trim(segment)).value;
                 Get(msg, "type") != Some(Str("update")) && Get(msg, "type") != Some(Str("ping")))
    ensures Decode(segment, parse) == Skip
    ensures Handle(sent, peers, self, Decode(segment, parse), ts) == sent
  {
  }

  /** An update from `self` adds exactly one `update` event, carrying `self` and the
      message's own `pos` and `vel`, to every registered outbox except the sender's; all
      other outboxes, the sender's included, stay as they were. */
  lemma UpdateRelayed(sent: Outboxes, peers: set<Id>, self: Id, segment: string,
                      parse: string -> Option<Value>, ts: int, msg: Value)
    requires Trim(segment) != [] && parse(Trim(segment)) == Some(msg)
    requires Get(msg, "type") == Some(Str("update"))
    ensures Handle(sent, peers, self, Decode(segment, parse), ts)
            == Fanout(sent, peers - {self}, Update(self, Get(msg, "pos"), Get(msg, "vel"), ts))
    ensures var r := Handle(sent, peers, self, Decode(segment, parse), ts);
            && r.Keys == sent.Keys
            && (forall k | k in sent && k in peers && k != self ::
                  r[k] == sent[k] + [Update(self, Get(msg, "pos"), Get(msg, "vel"), ts)])
            && (forall k | k in sent && (k !in peers || k == self) :: r[k] == sent[k])
  {
  }

  /** A ping adds exactly one `pong` to the sender's outbox and nothing anywhere else. */
  lemma PingAnswered(sent: Outboxes, peers: set<Id>, self: Id, segment: string,
                     parse: string -> Option<Value>, ts: int, msg: Value)
    requires self in sent
    requires Trim(segment) != [] && parse(Trim(segment)) == Some(msg)
    requires Get(msg, "type") == Some(Str("ping"))
    ensures Handle(sent, peers, self, Decode(segment, parse), ts) == sent[self := sent[self] + [Pong(ts)]]
  {
    FanoutOne(sent, self, Pong(ts));
  }

  /** Handling a line in front of others is handling it first, then the others with the
      clock one line further on. */
  lemma StepLine(sent: Outboxes, peers: set<Id>, self: Id, segment: string, others: seq<string>,
                 parse: string -> Option<Value>, clock: nat -> int, from: nat)
    ensures HandleAll(sent, peers, self, Requests([segment] + others, parse), clock, from)
         == HandleAll(Handle(sent, peers, self, Decode(segment, parse), clock(from)), peers, self,
                      Requests(others, parse), clock, from + 1)
  {
    assert ([segment] + others)[0] == segment;
    assert ([segment] + others)[1..] == others;
  }

  /** One turn of the receive loop: cutting the first line off a buffer and handling it
      leaves the same lines still to be handled, with the same effect in the end, and the
      same tail. */
  lemma HandleFirstLine(before: Outboxes, after: Outboxes, peers: set<Id>, self: Id, buffer: string, i: nat,
                        parse: string -> Option<Value>, clock: nat -> int, at: nat)
    requires i < |buffer| && i == IndexOf(buffer, '\n')
    requires after == Handle(before, peers, self, Decode(buffer[..i], parse), clock(at))
    ensures Split(buffer[i + 1..]).rest == Split(buffer).rest
    ensures HandleAll(after, peers, self, Requests(Split(buffer[i + 1..]).lines, parse), clock, at + 1)
         == HandleAll(before, peers, self, Requests(Split(buffer).lines, parse), clock, at)
  {
    SplitAtFirst(buffer, i);
    StepLine(before, peers, self, buffer[..i], Split(buffer[i + 1..]).lines, parse, clock, at);
  }

  /** Handling `r1 + r2` is handling `r1`, then `r2` with the clock `|r1|` lines further on. */
  lemma {:induction false} HandleAllAppend(sent: Outboxes, peers: set<Id>, self: Id, r1: seq<Request>, r2: seq<Request>,
                                           clock: nat -> int, from: nat)
    ensures HandleAll(sent, peers, self, r1 + r2, clock, from)
         == HandleAll(HandleAll(sent, peers, self, r1, clock, from), peers, self, r2, clock, from + |r1|)
    decreases |r1|
  {
    if r1 == [] {
      assert r1 + r2 == r2;
    } else {
      assert (r1 + r2)[0] == r1[0];
      assert (r1 + r2)[1..] == r1[1..] + r2;
      HandleAllAppend(Handle(sent, peers, self, r1[0], clock(from)), peers, self, r1[1..], r2, clock, from + 1);
    }
  }

  /** Requests from a registered sender only ever write to registered sockets: the outbox of
      a socket that is not registered does not change, and no outbox appears or disappears. */
  lemma {:induction false} HandleAllOnlyPeers(sent: Outboxes, peers: set<Id>, self: Id, reqs: seq<Request>,
                                              clock: nat -> int, from: nat)
    requires self in peers
    ensures var r := HandleAll(sent, peers, self, reqs, clock, from);
            && r.Keys == sent.Keys
            && forall k | k in sent && k !in peers :: r[k] == sent[k]
    decreases |reqs|
  {
    if reqs != [] {
      HandleAllOnlyPeers(Handle(sent, peers, self, reqs[0], clock(from)), peers, self, reqs[1..], clock, from + 1);
    }
  }

  /** The sender never hears its own updates: whatever it sends, its outbox only grows by
      `pong` events. */
  lemma {:induction false} NoEchoToSender(sent: Outboxes, peers: set<Id>, self: Id, reqs: seq<Request>,
                                          clock: nat -> int, from: nat)
    requires self in sent
    ensures var r := HandleAll(sent, peers, self, reqs, clock, from);
            && self in r && |sent[self]| <= |r[self]| && r[self][..|sent[self]|] == sent[self]
            && forall i | |sent[self]| <= i < |r[self]| :: r[self][i].Pong?
    decreases |reqs|
  {
    if reqs != [] {
      var next := Handle(sent, peers, self, reqs[0], clock(from));
      assert self in next && |sent[self]| <= |next[self]| && next[self][..|sent[self]|] == sent[self]
             && forall i | |sent[self]| <= i < |next[self]| :: next[self][i].Pong? by {
        match reqs[0]
        case Skip =>
        case UpdateRequest(pos, vel) =>
          assert next[self] == sent[self];
        case PingRequest =>
          assert next[self] == sent[self] + [Pong(clock(from))];
      }
      NoEchoToSender(next, peers, self, reqs[1..], clock, from + 1);
      var r := HandleAll(next, peers, self, reqs[1..], clock, from + 1);
      assert r[self][..|sent[self]|] == r[self][..|next[self]|][..|sent[self]|];
    }
  }

  /** A skipped line does not stop the lines after it: they are handled as if it were not
      there, only with the clock one line further on. */
  lemma SkippedLineDoesNotStop(sent: Outboxes, peers: set<Id>, self: Id, l1: seq<string>, bad: string, l2: seq<string>,
                               parse: string -> Option<Value>, clock: nat -> int, from: nat)
    requires Decode(bad, parse) == Skip
    ensures HandleAll(sent, peers, self, Requests(l1 + [bad] + l2, parse), clock, from)
         == HandleAll(HandleAll(sent, peers, self, Requests(l1, parse), clock, from), peers, self,
                      Requests(l2, parse), clock, from + |l1| + 1)
  {
    var r1 := Requests(l1, parse);
    var r2 := Requests(l2, parse);
    RequestsAppend(l1 + [bad], l2, parse);
    RequestsAppend(l1, [bad], parse);
    assert Requests([bad], parse) == [Skip];
    HandleAllAppend(sent, peers, self, r1 + [Skip], r2, clock, from);
    HandleAllAppend(sent, peers, self, r1, [Skip], clock, from);
    var mid := HandleAll(sent, peers, self, r1, clock, from);
    assert HandleAll(mid, peers, self, [Skip], clock, from + |r1|) == mid;
  }

  /** Lines handled in two groups, the second with the clock moved on by the first's
      length, have the effect of all of them handled at once. */
  lemma HandleLinesAppend(sent: Outboxes, peers: set<Id>, self: Id, l1: seq<string>, l2: seq<string>,
                          parse: string -> Option<Value>, clock: nat -> int)
    ensures HandleAll(HandleAll(sent, peers, self, Requests(l1, parse), clock, 0), peers, self,
                      Requests(l2, parse), clock, |l1|)
            == HandleAll(sent, peers, self, Requests(l1 + l2, parse), clock, 0)
  {
    var r1, r2 := Requests(l1, parse), Requests(l2, parse);
    var mid := HandleAll(sent, peers, self, r1, clock, 0);
    assert |r1| == |l1|;
    calc {
      HandleAll(sent, peers, self, Requests(l1 + l2, parse), clock, 0);
      { RequestsAppend(l1, l2, parse); }
      HandleAll(sent, peers, self, r1 + r2, clock, 0);
      { HandleAllAppend(sent, peers, self, r1, r2, clock, 0); }
      HandleAll(mid, peers, self, r2, clock, 0 + |r1|);
    }
  }

  /** Chunking does not matter: two chunks delivered one after the other to a buffer without
      a line feed cut the same lines, leave the same buffer and, given the same clock
      readings, write the same events as their concatenation delivered at once. */
  lemma ChunkingDoesNotMatter(sent: Outboxes, peers: set<Id>, self: Id, buffer: string, c1: string, c2: string,
                              parse: string -> Option<Value>, clock: nat -> int)
    requires '\n' !in buffer
    ensures var first := Split(buffer + c1);
            var second := Split(first.rest + c2);
            var whole := Split(buffer + c1 + c2);
            && whole == Cut(first.lines + second.lines, second.rest)
            && HandleAll(HandleAll(sent, peers, self, Requests(first.lines, parse), clock, 0), peers, self,
                         Requests(second.lines, parse), clock, |first.lines|)
               == HandleAll(sent, peers, self, Requests(whole.lines, parse), clock, 0)
  {
    var first := Split(buffer + c1);
    var second := Split(first.rest + c2);
    SplitAppend(buffer + c1, c2);
    HandleLinesAppend(sent, peers, self, first.lines, second.lines, parse, clock);
  }
}

/** `AgentClient._write` of `agent_client.py`: a write that is sent again after a lost acknowledgement, against
    a server that honours idempotency keys, whatever the network and the other clients do. */
module WriteProtocol {
  import opened Text
  import opened Utf8

  datatype Request = Request(verb: string, path: string, key: string, etag: Option<string>, body: seq<Byte>)

  /** `valid` when the payload passes the client's checks of a document response. */
  datatype Response = Response(status: int, valid: bool)

  predicate Success(r: Response) {
    r.status == 200 || r.status == 201
  }

  // ----- The server's contract -----

  /** The writes that took effect, and for each key the request and the response it stands for. */
  datatype Server = Server(effects: seq<Request>, done: map<string, (Request, Response)>)

  /** The answer to a request whose key is new. */
  type Policy = (Server, Request) -> Response

  /** A key that was used answers as before, or with a conflict if the request differs; only a request with a
      new key that succeeds takes effect. */
  function Handle(policy: Policy, s: Server, r: Request): (Server, Response) {
    if r.key in s.done then (s, if s.done[r.key].0 == r then s.done[r.key].1 else Response(409, false))
    else
      var answer := policy(s, r);
      if Success(answer) then (Server(s.effects + [r], s.done[r.key := (r, answer)]), answer) else (s, answer)
  }

  function HandleAll(policy: Policy, s: Server, requests: seq<Request>): Server {
    if |requests| == 0 then s
      else Handle(policy, HandleAll(policy, s, requests[..|requests| - 1]), requests[|requests| - 1]).0
  }

  /** How often a key took effect. */
  function Count(effects: seq<Request>, key: string): nat {
    if |effects| == 0 then 0 else Count(effects[..|effects| - 1], key) + if effects[|effects| - 1].key == key then 1
      else 0
  }

  /** Each key took effect at most once, and exactly when it has a response on record, for the request recorded. */
  ghost predicate Valid(s: Server) {
    && (forall key :: Count(s.effects, key) == if key in s.done then 1 else 0)
    && (forall key :: key in s.done ==>
      s.done[key].0.key == key && s.done[key].0 in s.effects && Success(s.done[key].1))
  }

  lemma HandleValid(policy: Policy, s: Server, r: Request)
    requires Valid(s)
    ensures Valid(Handle(policy, s, r).0)
    ensures Success(Handle(policy, s, r).1) ==> Recorded(Handle(policy, s, r).0, r)
    ensures forall q :: Recorded(s, q) ==> Recorded(Handle(policy, s, r).0, q)
  {
    var s' := Handle(policy, s, r).0;
    if s' != s {
      assert s'.effects[..|s'.effects| - 1] == s.effects;
    }
  }

  /** The request is the one that its key stands for. */
  ghost predicate Recorded(s: Server, r: Request) {
    r.key in s.done && s.done[r.key].0 == r
  }

  /** Nothing that clients send makes a key take effect twice, or undoes one that did. */
  lemma {:induction false} HandleAllValid(policy: Policy, s: Server, requests: seq<Request>)
    requires Valid(s)
    ensures Valid(HandleAll(policy, s, requests))
    ensures forall q :: Recorded(s, q) ==> Recorded(HandleAll(policy, s, requests), q)
  {
    if |requests| > 0 {
      var init := requests[..|requests| - 1];
      HandleAllValid(policy, s, init);
      HandleValid(policy, HandleAll(policy, s, init), requests[|requests| - 1]);
    }
  }

  /** A recorded request took effect, once. */
  lemma RecordedOnce(s: Server, r: Request)
    requires Valid(s) && Recorded(s, r)
    ensures Count(s.effects, r.key) == 1 && r in s.effects
  {
  }

  // ----- The network -----

  /** What becomes of a request: acknowledged; lost on the way there; lost on the way back; delivered when
      everything else is over; or refused by the transport with another error. */
  datatype Fate = Acknowledged | Dropped | Unacknowledged | Delayed | Broken

  datatype Reply = Answer(response: Response) | LostAcknowledgement | OtherError

  predicate Loses(fate: Fate) {
    fate.Dropped? || fate.Unacknowledged? || fate.Delayed?
  }

  class Transport {
    const policy: Policy
    const fate: nat -> Fate
    /** What other clients send before each attempt. */
    const others: nat -> seq<Request>
    var server: Server
    var sent: seq<Request>
    var late: seq<Request>

    constructor (policy: Policy, fate: nat -> Fate, others: nat -> seq<Request>, server: Server)
      ensures this.policy == policy && this.fate == fate && this.others == others
      ensures this.server == server && sent == [] && late == []
    {
      this.policy, this.fate, this.others := policy, fate, others;
      this.server, sent, late := server, [], [];
    }

    /** The server when attempt `n` reaches it. */
    ghost function Before(n: nat): Server
      reads this
    {
      HandleAll(policy, server, others(n))
    }

    method Send(r: Request) returns (reply: Reply)
      requires Valid(server)
      modifies this
      ensures sent == old(sent) + [r] && Valid(server)
      ensures forall q :: Recorded(old(server), q) ==> Recorded(server, q)
      ensures late == old(late) + if fate(|old(sent)|).Delayed? then [r] else []
      ensures reply.LostAcknowledgement? <==> Loses(fate(|old(sent)|))
      ensures reply.Answer? <==> fate(|old(sent)|).Acknowledged?
      ensures reply.Answer? ==> (server, reply.response) == Handle(policy, old(Before(|sent|)), r)
      ensures reply.Answer? && Success(reply.response) ==> Recorded(server, r)
    {
      var n := |sent|;
      HandleAllValid(policy, server, others(n));
      server := HandleAll(policy, server, others(n));
      HandleValid(policy, server, r);
      sent := sent + [r];
      match fate(n) {
        case Acknowledged =>
          var answer := Handle(policy, server, r);
          server := answer.0;
          return Answer(answer.1);
        case Dropped =>
          return LostAcknowledgement;
        case Unacknowledged =>
          server := Handle(policy, server, r).0;
          return LostAcknowledgement;
        case Delayed =>
          late := late + [r];
          return LostAcknowledgement;
        case Broken =>
          return OtherError;
      }
    }
  }

  // ----- The client -----

  const MAX_MARKDOWN_BYTES := 131_072

  predicate ValidKey(key: string) {
    1 <= |key| <= 128 && forall i :: 0 <= i < |key| ==> 0x21 <= key[i] as int <= 0x7E
  }

  predicate StrongEtag(etag: string) {
    && |etag| == 73 && etag[..8] == "\"sha256-" && etag[72] == '"'
    && forall i :: 8 <= i < 72 ==> '0' <= etag[i] <= '9' || 'a' <= etag[i] <= 'f'
  }

  predicate ValidUrlPath(path: string) {
    |path| > 0 && path[0] == '/' && '\r' !in path && '\n' !in path
  }

  /** The checks that precede every request. */
  predicate Accepts(readOnly: bool, path: string, markdown: string, key: string, etag: Option<string>) {
    && !readOnly && ValidKey(key) && |markdown| > 0 && |Encode(markdown)| <= MAX_MARKDOWN_BYTES
    && (etag.Some? ==> StrongEtag(etag.value)) && ValidUrlPath(path)
  }

  datatype Outcome = Returned | InputRefused | Lost | TransportFailed | BadStatus(status: int) | BadPayload

  /** `_write` */
  method Write(t: Transport, readOnly: bool, verb: string, path: string, markdown: string, key: string,
               etag: Option<string>, retry: bool)
      returns (o: Outcome)
    requires Valid(t.server)
    modifies t
    ensures Valid(t.server)
    ensures o.InputRefused? <==> !Accepts(readOnly, path, markdown, key, etag)
    // One request, or the same request twice; the second only after the first was lost.
    ensures var r, n := Request(verb, path, key, etag, Encode(markdown)), |old(t.sent)|;
      && (o.InputRefused? ==> t.sent == old(t.sent) && t.server == old(t.server))
      && (!o.InputRefused? && !(retry && Loses(t.fate(n))) ==> t.sent == old(t.sent) + [r])
      && (!o.InputRefused? && retry && Loses(t.fate(n)) ==> t.sent == old(t.sent) + [r, r])
    // A normal return means that exactly this request took effect, once.
    ensures o.Returned? ==>
      Recorded(t.server, Request(verb, path, key, etag, Encode(markdown))) && Count(t.server.effects, key) == 1
    // Whatever the outcome, the key took effect at most once.
    ensures Count(t.server.effects, key) <= 1
    ensures o.Lost? <==> Accepts(readOnly, path, markdown, key, etag) && Loses(t.fate(|t.sent| - 1))
    ensures forall q :: Recorded(old(t.server), q) ==> Recorded(t.server, q)
  {
    if !Accepts(readOnly, path, markdown, key, etag) {
      return InputRefused;
    }
    var r := Request(verb, path, key, etag, Encode(markdown));
    ghost var n := |t.sent|;
    var attempts := 0;
    while true
      invariant 0 <= attempts <= 1 && Valid(t.server)
      invariant attempts == 0 ==> t.sent == old(t.sent)
      invariant attempts == 1 ==> t.sent == old(t.sent) + [r] && retry && Loses(t.fate(n))
      invariant forall q :: Recorded(old(t.server), q) ==> Recorded(t.server, q)
      decreases 1 - attempts
    {
      var reply := t.Send(r);
      match reply {
        case LostAcknowledgement =>
          if !retry || attempts != 0 {
            return Lost;
          }
          attempts := attempts + 1;
        case OtherError =>
          return TransportFailed;
        case Answer(response) =>
          if !Success(response) {
            return BadStatus(response.status);
          }
          RecordedOnce(t.server, r);
          if !response.valid {
            return BadPayload;
          }
          return Returned;
      }
    }
  }

  /** Requests delivered after the return, those of this write included, change nothing for its key. */
  lemma AfterwardsOnce(policy: Policy, s: Server, r: Request, later: seq<Request>)
    requires Valid(s)
    ensures Count(HandleAll(policy, s, later).effects, r.key) <= 1
    ensures Recorded(s, r) ==>
      Recorded(HandleAll(policy, s, later), r) && Count(HandleAll(policy, s, later).effects, r.key) == 1
  {
    HandleAllValid(policy, s, later);
  }
}

/** Several replicas answering under one participant id, behind a router that
    does not know they disagree. */
module Fleet {
  import opened Wire
  import opened Model
  import opened Lineage
  import opened History
  import opened Issuer
  import opened Consumer

  const PARTICIPANT := "svc/api-7"

  class Replica {
    const epochId: string
    const issuer: HeartbeatIssuer
    var current: Heartbeat

    constructor (epochId: string, now: int, lease: int)
      requires epochId != ""
      ensures this.epochId == epochId && fresh(issuer) && Valid()
      ensures issuer.nextSequence == 1
    {
      this.epochId := epochId;
      var own := new HeartbeatIssuer(PARTICIPANT, epochId, "", lease, map[]);
      var first := own.Issue(now);
      issuer, current := own, first;
    }

    ghost predicate Valid()
      reads this, issuer
    {
      && issuer.epochId == epochId && issuer.participantId == PARTICIPANT
      && issuer.nextSequence > 0
      && current.nodeId == Str(PARTICIPANT) && current.bootId == Str(epochId)
      && current.sequence == Int(issuer.nextSequence - 1)
    }

    /** `beat`: the replica's own lease moves on by one revision. */
    method Beat(now: int)
      requires Valid()
      modifies this`current, issuer`nextSequence
      ensures Valid() && issuer.nextSequence == old(issuer.nextSequence) + 1
      ensures current == Minted(PARTICIPANT, epochId, old(issuer.nextSequence), now, issuer.lease, issuer.extensions)
      ensures Rises(old(current), current)
    {
      current := issuer.Issue(now);
    }
  }

  class Gateway {
    var replicas: seq<Replica>
    var cursor: nat
    var unreachable: bool
    var pinned: Option<Replica>
    var served: seq<string>

    constructor (replicas: seq<Replica>)
      ensures this.replicas == replicas && cursor == 0 && !unreachable && pinned == None && served == []
    {
      this.replicas := replicas;
      cursor, unreachable, pinned, served := 0, false, None, [];
    }

    /** The next replica in turn, unless one is pinned. */
    method Route() returns (replica: Replica)
      requires pinned.Some? || replicas != []
      modifies this`cursor
      ensures pinned.Some? ==> replica == pinned.value && cursor == old(cursor)
      ensures pinned.None? ==> replica == replicas[old(cursor) % |replicas|] && cursor == old(cursor) + 1
    {
      if pinned.Some? { return pinned.value; }
      replica := replicas[cursor % |replicas|];
      cursor := cursor + 1;
    }

    /** `fetch`: nothing when no backend is reachable, else the routed replica's
        current document. */
    method Fetch(cal: Calendar) returns (document: Option<Json>, ghost from: Option<Replica>)
      requires unreachable || pinned.Some? || replicas != []
      modifies this`cursor, this`served
      ensures document.None? <==> unreachable
      ensures unreachable ==> served == old(served) && cursor == old(cursor)
      ensures !unreachable ==>
        && from == (if pinned.Some? then pinned else Some(replicas[old(cursor) % |replicas|]))
        && document == Some(ToDict(cal, from.value.current)) && served == old(served) + [from.value.epochId]
    {
      if unreachable { return None, None; }
      var replica := Route();
      served := served + [replica.epochId];
      document, from := Some(ToDict(cal, replica.current)), Some(replica);
    }
  }

  /** What routing can do to a consumer, whatever the router picks: every document
      comes from one of the pool's epochs, so the held epoch changes at most once
      per replica, and never back. */
  lemma RoutingIsBounded(r: Rules, ds: seq<Delivery>, pool: set<string>)
    requires forall d | d in ds && d.reading.Candidate? ::
      d.reading.heartbeat.bootId.Str? && d.reading.heartbeat.bootId.s in pool
    ensures EpochChanges(Log(r, ds)) <= |pool|
    ensures LegalHistory(Log(r, ds))
  {
    var epochs := set name | name in pool :: Str(name);
    ImageIsSmaller(pool);
    assert forall d | d in ds && d.reading.Candidate? :: d.reading.heartbeat.bootId in epochs by {
      forall d | d in ds && d.reading.Candidate? ensures d.reading.heartbeat.bootId in epochs {
        assert d.reading.heartbeat.bootId == Str(d.reading.heartbeat.bootId.s);
      }
    }
    EpochChangesAreBounded(r, ds, epochs);
    WholeRun(r, ds);
  }

  lemma {:induction false} ImageIsSmaller(pool: set<string>)
    ensures |set name | name in pool :: Str(name)| <= |pool|
  {
    if pool != {} {
      var one :| one in pool;
      ImageIsSmaller(pool - {one});
      assert (set name | name in pool :: Str(name)) == (set name | name in pool - {one} :: Str(name)) + {Str(one)};
    }
  }

  /** What is read from a rendered heartbeat keeps its epoch. */
  lemma ReadKeepsEpoch(cal: Calendar, h: Heartbeat)
    ensures Read(cal, ToDict(cal, h)).Candidate? ==> Read(cal, ToDict(cal, h)).heartbeat.bootId == h.bootId
  {
    Rendered(cal, h);
  }

  /** A working pool: distinct replicas, each with a counter of its own. */
  ghost predicate Pool(replicas: seq<Replica>)
    reads replicas, set i | 0 <= i < |replicas| :: replicas[i].issuer
  {
    && (forall i | 0 <= i < |replicas| :: replicas[i].Valid())
    && (forall i, j | 0 <= i < j < |replicas| :: replicas[i] != replicas[j] && replicas[i].issuer != replicas[j].issuer)
  }

  /** One read of a run: before it any replicas renew their leases, in any order and
      as often as they like, and the gateway may be pinned, released or cut off. */
  datatype Tick = Tick(at: int, beats: seq<nat>, pinned: Option<nat>, unreachable: bool)

  ghost predicate Serving(gateway: Gateway)
    reads gateway, gateway.replicas, set i | 0 <= i < |gateway.replicas| :: gateway.replicas[i].issuer
  {
    && gateway.replicas != [] && Pool(gateway.replicas)
    && (gateway.pinned.Some? ==> gateway.pinned.value in gateway.replicas)
  }

  ghost predicate FromPool(replicas: seq<Replica>, d: Delivery) {
    d.reading.Candidate? ==> exists i :: 0 <= i < |replicas| && d.reading.heartbeat.bootId == Str(replicas[i].epochId)
  }

  /** One replica renews its lease; the pool goes on working. */
  method BeatOne(gateway: Gateway, k: nat, at: int)
    requires Serving(gateway) && k < |gateway.replicas|
    modifies gateway.replicas[k], gateway.replicas[k].issuer
    ensures Serving(gateway) && Rises(old(gateway.replicas[k].current), gateway.replicas[k].current)
  {
    gateway.replicas[k].Beat(at);
  }

  method BeatAll(gateway: Gateway, beats: seq<nat>, at: int)
    requires Serving(gateway)
    modifies gateway.replicas, set i | 0 <= i < |gateway.replicas| :: gateway.replicas[i].issuer
    ensures Serving(gateway)
  {
    for i := 0 to |beats|
      invariant Serving(gateway)
    {
      if beats[i] < |gateway.replicas| { BeatOne(gateway, beats[i], at); }
    }
  }

  /** One read through the gateway, as the consumer's transport answers it. */
  method ReplyOf(cal: Calendar, gateway: Gateway) returns (reply: Reply)
    requires Serving(gateway)
    modifies gateway`cursor, gateway`served
    ensures Serving(gateway)
    ensures reply.Served? ==> reply.principal == None && FromPool(gateway.replicas, Delivery(Read(cal, reply.document), 0))
    ensures reply.Failed? <==> gateway.unreachable
  {
    var document, from := gateway.Fetch(cal);
    if document.None? {
      reply := Failed("ConnectionError");
    } else {
      reply := Served(document.value, None);
      assert from.value in gateway.replicas && from.value.Valid();
      ReadKeepsEpoch(cal, from.value.current);
    }
  }

  /** What a test bench does to a gateway between two reads. */
  method Steer(gateway: Gateway, tick: Tick)
    requires Serving(gateway)
    modifies gateway`pinned, gateway`unreachable
    ensures Serving(gateway) && gateway.unreachable == tick.unreachable
  {
    gateway.unreachable := tick.unreachable;
    gateway.pinned :=
      if tick.pinned.Some? && tick.pinned.value < |gateway.replicas| then Some(gateway.replicas[tick.pinned.value]) else None;
  }

  /** One tick: beats, steering, one refetch. */
  method OneTick(gateway: Gateway, consumer: HeartbeatConsumer, tick: Tick) returns (ghost event: Event)
    requires Lawful(consumer.cal) && Serving(gateway) && Apart(gateway, consumer)
    modifies gateway`cursor, gateway`served, gateway`pinned, gateway`unreachable, consumer
    modifies gateway.replicas, set i | 0 <= i < |gateway.replicas| :: gateway.replicas[i].issuer
    ensures Serving(gateway) && consumer.View() == Step(consumer.cal, consumer.terms, old(consumer.View()), event)
    ensures event.Fetched? && event.at == tick.at && forall d | d in GatedOne(consumer.terms, event) :: FromPool(gateway.replicas, d)
  {
    BeatAll(gateway, tick.beats, tick.at);
    Steer(gateway, tick);
    var reply := ReplyOf(consumer.cal, gateway);
    event := Fetched(tick.at, ReadReply(consumer.cal, reply));
    var result := consumer.Refetch(tick.at, reply);
  }

  ghost predicate Apart(gateway: Gateway, consumer: HeartbeatConsumer)
    reads gateway, gateway.replicas
  {
    forall i | 0 <= i < |gateway.replicas| :: consumer as object != gateway.replicas[i] && consumer as object != gateway.replicas[i].issuer
  }

  /** The fleet and a consumer together, for any number of reads under any routing:
      the consumer's state is the fold of admission over what it was served, and its
      held epoch has changed no more often than there are replicas. */
  method RoundRobin(gateway: Gateway, consumer: HeartbeatConsumer, ticks: seq<Tick>) returns (ghost ds: seq<Delivery>)
    requires Lawful(consumer.cal) && Serving(gateway) && Apart(gateway, consumer)
    requires consumer.View() == Untouched(consumer.terms)
    modifies gateway`cursor, gateway`served, gateway`pinned, gateway`unreachable, consumer
    modifies gateway.replicas, set i | 0 <= i < |gateway.replicas| :: gateway.replicas[i].issuer
    ensures consumer.fetches == |ticks| && consumer.state == Run(RulesOf(consumer.terms), ds)
    ensures var log := Log(RulesOf(consumer.terms), ds);
      LegalHistory(log) && EpochChanges(log) <= |gateway.replicas|
  {
    ds := [];
    for i := 0 to |ticks|
      invariant Serving(gateway) && consumer.fetches == i
      invariant consumer.state == Run(RulesOf(consumer.terms), ds)
      invariant forall d | d in ds :: FromPool(gateway.replicas, d)
    {
      ghost var before := consumer.View();
      ghost var event := OneTick(gateway, consumer, ticks[i]);
      FoldStep(consumer.cal, consumer.terms, before, ds, event);
      ds := ds + GatedOne(consumer.terms, event);
    }
    PoolIsBounded(RulesOf(consumer.terms), gateway.replicas, ds);
  }

  lemma PoolIsBounded(r: Rules, replicas: seq<Replica>, ds: seq<Delivery>)
    requires forall d | d in ds :: FromPool(replicas, d)
    ensures LegalHistory(Log(r, ds)) && EpochChanges(Log(r, ds)) <= |replicas|
  {
    var names := seq(|replicas|, i requires 0 <= i < |replicas| => replicas[i].epochId);
    var pool := set name | name in names;
    forall d | d in ds && d.reading.Candidate?
      ensures d.reading.heartbeat.bootId.Str? && d.reading.heartbeat.bootId.s in pool
    {
      assert FromPool(replicas, d);
      var i :| 0 <= i < |replicas| && d.reading.heartbeat.bootId == Str(replicas[i].epochId);
      assert names[i] in names;
    }
    RoutingIsBounded(r, ds, pool);
    NamesAreFew(names);
  }

  lemma {:induction false} NamesAreFew(names: seq<string>)
    ensures |set name | name in names| <= |names|
  {
    if names != [] {
      var rest := names[1..];
      NamesAreFew(rest);
      assert (set name | name in names) == (set name | name in rest) + {names[0]};
    }
  }
}

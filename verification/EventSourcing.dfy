/**
 * Event sourcing on the in-memory store: `InMemoryEventStore`, `AggregateRoot`,
 * `EventSourcedRepository.load` and `save`, and replay from a snapshot.  Many aggregates of many
 * streams load, raise and save in any order.
 */
module EventSourcing {
  import opened Common

  datatype DomainEvent = DomainEvent(eventType: string, payload: string)

  type Streams = map<string, seq<StoredEvent>>

  function StreamOf(streams: Streams, streamId: string): seq<StoredEvent>
  {
    if streamId in streams then streams[streamId] else []
  }

  /** `load(from_version)`: the events with a larger version, in stream order. */
  function After(events: seq<StoredEvent>, from: int): seq<StoredEvent>
  {
    if events == [] then []
    else
      var rest := After(events[..|events| - 1], from);
      if events[|events| - 1].version > from then rest + [events[|events| - 1]] else rest
  }

  /** r lists the events at positions `at`: exactly those with a larger version, in stream order. */
  ghost predicate Selects(events: seq<StoredEvent>, from: int, r: seq<StoredEvent>, at: seq<nat>)
  {
    && |at| == |r| && (forall i | 0 <= i < |r| :: at[i] < |events| && r[i] == events[at[i]])
    && (forall i, j | 0 <= i < j < |at| :: at[i] < at[j])
    && (forall p: nat :: p in at <==> p < |events| && events[p].version > from)
  }

  lemma SelectsMore(events: seq<StoredEvent>, e: StoredEvent, from: int, r: seq<StoredEvent>, at: seq<nat>)
    requires Selects(events, from, r, at)
    ensures e.version > from ==> Selects(events + [e], from, r + [e], at + [|events|])
    ensures e.version <= from ==> Selects(events + [e], from, r, at)
  {
    var more := events + [e];
    assert forall i | 0 <= i < |r| :: at[i] in at;
    if e.version > from {
      forall p: nat ensures p in at + [|events|] <==> p < |more| && more[p].version > from {
        assert p in at + [|events|] <==> p in at || p == |events|;
      }
    }
  }

  lemma {:induction false} AfterSelects(events: seq<StoredEvent>, from: int) returns (at: seq<nat>)
    ensures Selects(events, from, After(events, from), at)
  {
    if events == [] {
      at := [];
    } else {
      var n := |events| - 1;
      var init, e := events[..n], events[n];
      at := AfterSelects(init, from);
      SelectsMore(init, e, from, After(init, from), at);
      assert events == init + [e];
      if e.version > from {
        at := at + [n];
      }
    }
  }

  /** The batch `save` builds from the pending events of an aggregate. */
  function Stored(streamId: string, prior: int, pending: seq<DomainEvent>): (r: seq<StoredEvent>)
    ensures |r| == |pending| && Numbered(r, streamId, prior)
    ensures forall i | 0 <= i < |r| :: r[i].eventType == pending[i].eventType && r[i].payload == pending[i].payload
  {
    seq(|pending|, i requires 0 <= i < |pending| =>
      StoredEvent(streamId, prior + i + 1, pending[i].eventType, pending[i].payload))
  }

  // ---------------------------------------------------------------- runs

  /**
   * `version` and `pending` are the fields of AggregateRoot.  `base` lists the stored events the
   * object was rebuilt from or has itself saved; `lost` counts raised events that were pulled
   * without ending up in the store.
   */
  datatype Aggregate = Aggregate(streamId: string, version: int, pending: seq<DomainEvent>,
                                 base: seq<StoredEvent>, lost: nat)

  datatype SaveRecord = SaveRecord(streamId: string, prior: int, events: seq<StoredEvent>)

  /** `saves` records the saves that appended something. */
  datatype System = System(streams: Streams, aggs: map<nat, Aggregate>, saves: seq<SaveRecord>)

  datatype Event =
    | Create(a: nat, streamId: string)
    | Load(a: nat, streamId: string)
    | Raise(a: nat, event: DomainEvent)
    | Pull(a: nat)
    | Save(a: nat)

  function LastVersion(events: seq<StoredEvent>): int
  {
    if events == [] then 0 else events[|events| - 1].version
  }

  function Step(s: System, e: Event): System
  {
    match e
    case Create(a, streamId) =>
      if a in s.aggs then s else s.(aggs := s.aggs[a := Aggregate(streamId, 0, [], [], 0)])
    case Load(a, streamId) =>
      var events := After(StreamOf(s.streams, streamId), 0);
      if a in s.aggs || events == [] then s
      else s.(aggs := s.aggs[a := Aggregate(streamId, LastVersion(events), [], events, 0)])
    case Raise(a, ev) =>
      if a !in s.aggs then s
      else s.(aggs := s.aggs[a := s.aggs[a].(pending := s.aggs[a].pending + [ev], version := s.aggs[a].version + 1)])
    case Pull(a) =>
      if a !in s.aggs then s else s.(aggs := s.aggs[a := Drained(s.aggs[a])])
    case Save(a) =>
      if a !in s.aggs || s.aggs[a].pending == [] then s else SaveStep(s, a)
  }

  function Drained(agg: Aggregate): Aggregate
  {
    agg.(pending := [], lost := agg.lost + |agg.pending|)
  }

  function Prior(agg: Aggregate): int
  {
    agg.version - |agg.pending|
  }

  /** The events are pulled first; the append then succeeds or raises. */
  function SaveStep(s: System, a: nat): System
    requires a in s.aggs
  {
    var agg := s.aggs[a];
    var stream := StreamOf(s.streams, agg.streamId);
    if |stream| != Prior(agg) then
      s.(streams := s.streams[agg.streamId := stream], aggs := s.aggs[a := Drained(agg)])
    else
      var events := Stored(agg.streamId, Prior(agg), agg.pending);
      System(s.streams[agg.streamId := stream + events],
             s.aggs[a := agg.(pending := [], base := agg.base + events)],
             s.saves + [SaveRecord(agg.streamId, Prior(agg), events)])
  }

  const EMPTY := System(map[], map[], [])

  function Run(es: seq<Event>): System
  {
    if es == [] then EMPTY else Step(Run(es[..|es| - 1]), es[|es| - 1])
  }

  ghost predicate Reachable(s: System)
  {
    exists es :: Run(es) == s
  }

  lemma StepIsReachable(s: System, e: Event)
    requires Reachable(s)
    ensures Reachable(Step(s, e))
  {
    var es :| Run(es) == s;
    assert (es + [e])[..|es|] == es;
    assert Run(es + [e]) == Step(s, e);
  }

  // ---------------------------------------------------------------- invariant

  /** The i-th event of a stream carries version i. */
  ghost predicate Sequential(stream: seq<StoredEvent>, streamId: string)
  {
    Numbered(stream, streamId, 0)
  }

  ghost predicate AggregateInv(streams: Streams, agg: Aggregate)
  {
    && agg.version == |agg.base| + agg.lost + |agg.pending|
    && (agg.lost == 0 ==> agg.base <= StreamOf(streams, agg.streamId))
  }

  ghost predicate SaveInv(streams: Streams, r: SaveRecord)
  {
    && r.events != [] && 0 <= r.prior && r.prior + |r.events| <= |StreamOf(streams, r.streamId)|
    && StreamOf(streams, r.streamId)[r.prior..r.prior + |r.events|] == r.events
  }

  ghost predicate Inv(s: System)
  {
    && (forall streamId :: Sequential(StreamOf(s.streams, streamId), streamId))
    && (forall a | a in s.aggs :: AggregateInv(s.streams, s.aggs[a]))
    && (forall i | 0 <= i < |s.saves| :: SaveInv(s.streams, s.saves[i]))
    && (forall i, j | 0 <= i < j < |s.saves| && s.saves[i].streamId == s.saves[j].streamId ::
          s.saves[i].prior + |s.saves[i].events| <= s.saves[j].prior)
  }

  lemma {:induction false} AfterSequential(stream: seq<StoredEvent>, streamId: string, from: int)
    requires Sequential(stream, streamId)
    ensures After(stream, from) == if from < 0 then stream else if from <= |stream| then stream[from..] else []
  {
    if stream != [] {
      var n := |stream| - 1;
      var init := stream[..n];
      AfterSequential(init, streamId, from);
      assert stream == init + [stream[n]] && stream[n].version == n + 1;
      if 0 <= from <= n {
        assert stream[from..] == init[from..] + [stream[n]];
      }
    }
  }

  lemma SaveGrows(s: System, a: nat, streamId: string)
    requires a in s.aggs
    ensures StreamOf(s.streams, streamId) <= StreamOf(SaveStep(s, a).streams, streamId)
  {
  }

  lemma StepGrows(s: System, e: Event, streamId: string)
    ensures StreamOf(s.streams, streamId) <= StreamOf(Step(s, e).streams, streamId)
  {
    if e.Save? && e.a in s.aggs {
      SaveGrows(s, e.a, streamId);
    }
  }

  lemma SaveKeepsStreams(s: System, a: nat)
    requires Inv(s) && a in s.aggs
    ensures forall streamId :: Sequential(StreamOf(SaveStep(s, a).streams, streamId), streamId)
  {
    var agg := s.aggs[a];
    forall streamId ensures Sequential(StreamOf(SaveStep(s, a).streams, streamId), streamId) {
      assert Sequential(StreamOf(s.streams, streamId), streamId);
    }
  }

  lemma SaveKeepsAggregates(s: System, a: nat)
    requires Inv(s) && a in s.aggs && s.aggs[a].pending != []
    ensures forall b | b in SaveStep(s, a).aggs :: AggregateInv(SaveStep(s, a).streams, SaveStep(s, a).aggs[b])
  {
    var s' := SaveStep(s, a);
    assert AggregateInv(s.streams, s.aggs[a]);
    forall b | b in s'.aggs ensures AggregateInv(s'.streams, s'.aggs[b]) {
      if b != a {
        assert AggregateInv(s.streams, s.aggs[b]);
        SaveGrows(s, a, s.aggs[b].streamId);
      }
    }
  }

  lemma SaveKeepsRecords(s: System, a: nat)
    requires Inv(s) && a in s.aggs && s.aggs[a].pending != []
    ensures var s' := SaveStep(s, a);
            && (forall i | 0 <= i < |s'.saves| :: SaveInv(s'.streams, s'.saves[i]))
            && (forall i, j | 0 <= i < j < |s'.saves| && s'.saves[i].streamId == s'.saves[j].streamId ::
                  s'.saves[i].prior + |s'.saves[i].events| <= s'.saves[j].prior)
  {
    var s' := SaveStep(s, a);
    forall i | 0 <= i < |s'.saves| ensures SaveInv(s'.streams, s'.saves[i]) {
      if i < |s.saves| {
        assert SaveInv(s.streams, s.saves[i]);
        SaveGrows(s, a, s.saves[i].streamId);
      }
    }
    assert forall i | 0 <= i < |s.saves| :: SaveInv(s.streams, s.saves[i]);
  }

  lemma StepKeepsInv(s: System, e: Event)
    requires Inv(s)
    ensures Inv(Step(s, e))
  {
    if e.Load? {
      AfterSequential(StreamOf(s.streams, e.streamId), e.streamId, 0);
    } else if e.Save? && e.a in s.aggs && s.aggs[e.a].pending != [] {
      SaveKeepsStreams(s, e.a);
      SaveKeepsAggregates(s, e.a);
      SaveKeepsRecords(s, e.a);
    }
  }

  lemma {:induction false} RunKeepsInv(es: seq<Event>)
    ensures Inv(Run(es))
  {
    if es != [] {
      RunKeepsInv(es[..|es| - 1]);
      StepKeepsInv(Run(es[..|es| - 1]), es[|es| - 1]);
    }
  }

  lemma ReachableInv(s: System)
    requires Reachable(s)
    ensures Inv(s)
  {
    var es :| Run(es) == s;
    RunKeepsInv(es);
  }

  // ---------------------------------------------------------------- theorems

  /** Streams only grow, and the i-th event of a stream is at version i. */
  lemma StreamsAppendOnly(s: System, e: Event, streamId: string)
    requires Reachable(s)
    ensures StreamOf(s.streams, streamId) <= StreamOf(Step(s, e).streams, streamId)
    ensures Sequential(StreamOf(s.streams, streamId), streamId)
  {
    ReachableInv(s);
  }

  /**
   * What a save does, for every reachable state.  If the stream is as long as the aggregate's version
   * without its pending events, exactly those events come behind the stream, each with its type and
   * payload and the next version, and the save is recorded; otherwise no stream and no record changes.
   * In both cases nothing is pending afterwards, and no other aggregate changes.
   */
  lemma SaveAppendsExactly(s: System, a: nat)
    requires Reachable(s) && a in s.aggs && s.aggs[a].pending != []
    ensures var s', agg := Step(s, Save(a)), s.aggs[a];
            var stream, stream' := StreamOf(s.streams, agg.streamId), StreamOf(s'.streams, agg.streamId);
            && a in s'.aggs && s'.aggs[a].pending == [] && s'.aggs[a].version == agg.version
            && (forall b | b in s.aggs && b != a :: b in s'.aggs && s'.aggs[b] == s.aggs[b])
            && (forall id: string | id != agg.streamId :: StreamOf(s'.streams, id) == StreamOf(s.streams, id))
            && if |stream| == agg.version - |agg.pending| then
                 && stream <= stream' && |stream'| == |stream| + |agg.pending|
                 && (forall p | |stream| <= p < |stream'| ::
                       && stream'[p].streamId == agg.streamId && stream'[p].version == p + 1
                       && stream'[p].eventType == agg.pending[p - |stream|].eventType
                       && stream'[p].payload == agg.pending[p - |stream|].payload)
                 && s'.saves == s.saves + [SaveRecord(agg.streamId, |stream|, stream'[|stream|..])]
               else stream' == stream && s'.saves == s.saves
  {
  }

  /** The save makes the stream of the aggregate longer. */
  predicate Grows(s: System, a: nat)
    requires a in s.aggs
  {
    |StreamOf(Step(s, Save(a)).streams, s.aggs[a].streamId)| > |StreamOf(s.streams, s.aggs[a].streamId)|
  }

  /**
   * No lost update.  A save of an aggregate that has not lost events makes the stream grow exactly when
   * the aggregate was rebuilt from the stream's entire current contents; and a save that makes it grow
   * was based on the entire contents exactly when the aggregate has not lost events, that is, was
   * neither reused after a conflict nor drained by anyone else.
   */
  lemma NoLostUpdate(s: System, a: nat)
    requires Reachable(s) && a in s.aggs && s.aggs[a].pending != []
    ensures var agg, stream := s.aggs[a], StreamOf(s.streams, s.aggs[a].streamId);
            && (agg.lost == 0 ==> (Grows(s, a) <==> agg.base == stream))
            && (Grows(s, a) ==> (agg.base == stream <==> agg.lost == 0))
  {
    ReachableInv(s);
    assert AggregateInv(s.streams, s.aggs[a]);
    SaveAppendsExactly(s, a);
  }

  /** A load of a stream that has events rebuilds a new aggregate from all of them, at the last version. */
  lemma LoadSeesEverything(s: System, a: nat, streamId: string)
    requires Reachable(s) && a !in s.aggs
    ensures var s', stream := Step(s, Load(a, streamId)), StreamOf(s.streams, streamId);
            && s'.streams == s.streams && s'.saves == s.saves
            && s'.aggs == if stream == [] then s.aggs
                          else s.aggs[a := Aggregate(streamId, |stream|, [], stream, 0)]
  {
    ReachableInv(s);
    assert Sequential(StreamOf(s.streams, streamId), streamId);
    AfterSequential(StreamOf(s.streams, streamId), streamId, 0);
  }

  /** Raising queues the event and bumps the version; pulling empties the queue; neither touches a stream. */
  lemma RaiseAndPullExactly(s: System, a: nat, ev: DomainEvent)
    requires a in s.aggs
    ensures var raised, pulled := Step(s, Raise(a, ev)), Step(s, Pull(a));
            && raised.streams == pulled.streams == s.streams
            && a in raised.aggs && raised.aggs[a].pending == s.aggs[a].pending + [ev]
            && raised.aggs[a].version == s.aggs[a].version + 1 && raised.aggs[a].base == s.aggs[a].base
            && a in pulled.aggs && pulled.aggs[a].pending == [] && pulled.aggs[a].version == s.aggs[a].version
            && pulled.aggs[a].base == s.aggs[a].base
  {
  }

  /** No two saves succeed from the same prior version: their ranges are disjoint, and each keeps its range. */
  lemma SavesAreDisjoint(s: System, i: nat, j: nat)
    requires Reachable(s) && i < j < |s.saves| && s.saves[i].streamId == s.saves[j].streamId
    ensures s.saves[i].prior + |s.saves[i].events| <= s.saves[j].prior
    ensures SaveInv(s.streams, s.saves[i]) && SaveInv(s.streams, s.saves[j])
  {
    ReachableInv(s);
  }

  /** Reused after a conflict, an aggregate that never saw the other's event passes the version check. */
  lemma ReuseAfterConflict() returns (s: System)
    ensures Reachable(s) && 0 in s.aggs && s.aggs[0].pending != [] && Grows(s, 0)
    ensures s.aggs[0].base == [] && |StreamOf(s.streams, s.aggs[0].streamId)| == 1
  {
    var ev, stored := DomainEvent("e", ""), StoredEvent("s", 1, "e", "");
    assert Run([]) == EMPTY;
    StepIsReachable(EMPTY, Create(0, "s"));
    var s1 := System(map[], map[0 := Aggregate("s", 0, [], [], 0)], []);
    assert Step(EMPTY, Create(0, "s")) == s1;
    StepIsReachable(s1, Raise(0, ev));
    var mine := Aggregate("s", 1, [ev], [], 0);
    var s2 := System(map[], map[0 := mine], []);
    assert [] + [ev] == [ev];
    assert Step(s1, Raise(0, ev)) == s2;
    s := OtherSaves(s2, mine, ev, stored);
    var s6 := s;
    StepIsReachable(s6, Save(0));
    s := Step(s6, Save(0));
    assert s.aggs[0] == Aggregate("s", 1, [], [], 1) && s.streams == s6.streams;
    StepIsReachable(s, Raise(0, ev));
    s := Step(s, Raise(0, ev));
    SaveAppendsExactly(s, 0);
  }

  lemma OtherSaves(s: System, mine: Aggregate, ev: DomainEvent, stored: StoredEvent) returns (s': System)
    requires Reachable(s) && s == System(map[], map[0 := mine], [])
    requires stored == StoredEvent("s", 1, ev.eventType, ev.payload)
    ensures Reachable(s') && s'.streams == map["s" := [stored]] && 0 in s'.aggs && s'.aggs[0] == mine
  {
    StepIsReachable(s, Create(1, "s"));
    var s1 := s.(aggs := map[0 := mine, 1 := Aggregate("s", 0, [], [], 0)]);
    assert Step(s, Create(1, "s")) == s1;
    StepIsReachable(s1, Raise(1, ev));
    var s2 := s.(aggs := map[0 := mine, 1 := Aggregate("s", 1, [ev], [], 0)]);
    assert [] + [ev] == [ev];
    assert Step(s1, Raise(1, ev)) == s2;
    StepIsReachable(s2, Save(1));
    s' := Step(s2, Save(1));
    assert [] + Stored("s", 0, [ev]) == [stored];
  }

  // ---------------------------------------------------------------- replay and snapshots

  /** `apply_stored_event` folded over the events. */
  function Replay<S>(apply: (S, StoredEvent) -> S, state: S, events: seq<StoredEvent>): S
  {
    if events == [] then state
    else apply(Replay(apply, state, events[..|events| - 1]), events[|events| - 1])
  }

  /** `agg._version = event.version` after each event. */
  function ReplayVersion(version: int, events: seq<StoredEvent>): int
  {
    if events == [] then version else events[|events| - 1].version
  }

  /** Replay applies one event to the state; with the next lemma this fixes every replay. */
  lemma ReplayOne<S>(apply: (S, StoredEvent) -> S, state: S, e: StoredEvent)
    ensures Replay(apply, state, [e]) == apply(state, e) && Replay(apply, state, []) == state
  {
    assert [e][..0] == [];
  }

  lemma {:induction false} ReplayConcat<S>(apply: (S, StoredEvent) -> S, state: S, a: seq<StoredEvent>, b: seq<StoredEvent>)
    ensures Replay(apply, state, a + b) == Replay(apply, Replay(apply, state, a), b)
  {
    if b == [] {
      assert a + b == a;
    } else {
      ReplayConcat(apply, state, a, b[..|b| - 1]);
      assert (a + b)[..|a + b| - 1] == a + b[..|b| - 1];
    }
  }

  lemma SequentialReplay<S>(stream: seq<StoredEvent>, streamId: string, v: nat, apply: (S, StoredEvent) -> S, init: S)
    requires Sequential(stream, streamId) && v <= |stream|
    ensures Replay(apply, Replay(apply, init, stream[..v]), After(stream, v)) == Replay(apply, init, stream)
    ensures ReplayVersion(v, After(stream, v)) == ReplayVersion(0, stream) == |stream|
  {
    AfterSequential(stream, streamId, v);
    var tail := stream[v..];
    assert After(stream, v) == tail && stream == stream[..v] + tail;
    ReplayConcat(apply, init, stream[..v], tail);
  }

  /** Replaying `load(from_version=v)` on the state after the first v events gives the state and
      version of a full replay. */
  lemma SnapshotReplay<S>(s: System, streamId: string, v: nat, apply: (S, StoredEvent) -> S, init: S)
    requires Reachable(s) && v <= |StreamOf(s.streams, streamId)|
    ensures var stream := StreamOf(s.streams, streamId);
            var tail := After(stream, v);
            && Replay(apply, Replay(apply, init, stream[..v]), tail) == Replay(apply, init, stream)
            && ReplayVersion(v, tail) == ReplayVersion(0, stream) == |stream|
  {
    ReachableSequential(s, streamId);
    SequentialReplay(StreamOf(s.streams, streamId), streamId, v, apply, init);
  }

  lemma ReachableSequential(s: System, streamId: string)
    requires Reachable(s)
    ensures Sequential(StreamOf(s.streams, streamId), streamId)
  {
    ReachableInv(s);
  }

  lemma {:induction false} RunAppendOnly(es: seq<Event>, more: seq<Event>, streamId: string)
    ensures StreamOf(Run(es).streams, streamId) <= StreamOf(Run(es + more).streams, streamId)
  {
    if more == [] {
      assert es + more == es;
    } else {
      var init := more[..|more| - 1];
      RunAppendOnly(es, init, streamId);
      assert (es + more)[..|es + more| - 1] == es + init;
      assert Run(es + more) == Step(Run(es + init), more[|more| - 1]);
      StepGrows(Run(es + init), more[|more| - 1], streamId);
    }
  }

  // ---------------------------------------------------------------- runs with a snapshot store

  datatype Snapshot = Snapshot(streamId: string, version: int, state: string)

  type Snapshots = map<string, Snapshot>

  function WithSnapshot(snapshots: Snapshots, streamId: string, version: int, state: string): Snapshots
  {
    snapshots[streamId := Snapshot(streamId, version, state)]
  }

  /** How an aggregate replays its events, and how its state becomes the bytes of a snapshot and back. */
  datatype Replayer<!S> = Replayer(apply: (S, StoredEvent) -> S, init: S, encode: S -> string, decode: string -> S)

  ghost predicate RoundTrips<S(!new)>(m: Replayer<S>)
  {
    forall state: S :: m.decode(m.encode(state)) == state
  }

  datatype SnapSystem = SnapSystem(sys: System, snapshots: Snapshots)

  /** `Take` is a call of `take`, which stores any version and any bytes. */
  datatype SnapEvent = Proceed(e: Event) | Take(streamId: string, version: int, state: string)

  function SnapStep(s: SnapSystem, e: SnapEvent): SnapSystem
  {
    match e
    case Proceed(event) => s.(sys := Step(s.sys, event))
    case Take(streamId, version, state) => s.(snapshots := WithSnapshot(s.snapshots, streamId, version, state))
  }

  function SnapRun(es: seq<SnapEvent>): SnapSystem
  {
    if es == [] then SnapSystem(EMPTY, map[]) else SnapStep(SnapRun(es[..|es| - 1]), es[|es| - 1])
  }

  /** The version and the bytes are those of an aggregate that has seen the first `version` events of the
      stream, perhaps not the latest. */
  ghost predicate Honest<S>(m: Replayer<S>, streams: Streams, snap: Snapshot)
  {
    var stream := StreamOf(streams, snap.streamId);
    && 0 <= snap.version <= |stream|
    && snap.state == m.encode(Replay(m.apply, m.init, stream[..snap.version]))
  }

  /** The latest `take` for the stream was honest when it was made, whatever the earlier ones were. */
  ghost predicate LatestTakeHonest<S>(m: Replayer<S>, es: seq<SnapEvent>, streamId: string)
  {
    es != [] &&
    var init, e := es[..|es| - 1], es[|es| - 1];
    if e.Take? && e.streamId == streamId
    then Honest(m, SnapRun(init).sys.streams, Snapshot(streamId, e.version, e.state))
    else LatestTakeHonest(m, init, streamId)
  }

  lemma HonestKept<S>(m: Replayer<S>, s: System, e: Event, snap: Snapshot)
    requires Honest(m, s.streams, snap)
    ensures Honest(m, Step(s, e).streams, snap)
  {
    StepGrows(s, e, snap.streamId);
    var was, now := StreamOf(s.streams, snap.streamId), StreamOf(Step(s, e).streams, snap.streamId);
    assert was[..snap.version] == now[..snap.version];
  }

  lemma {:induction false} SnapRunIsRun(es: seq<SnapEvent>)
    ensures Reachable(SnapRun(es).sys)
  {
    if es == [] {
      assert Run([]) == EMPTY;
    } else {
      SnapRunIsRun(es[..|es| - 1]);
      if es[|es| - 1].Proceed? {
        StepIsReachable(SnapRun(es[..|es| - 1]).sys, es[|es| - 1].e);
      }
    }
  }

  /** An honest snapshot stays honest while the stream grows and other streams get snapshots. */
  lemma {:induction false} HonestStays<S>(m: Replayer<S>, es: seq<SnapEvent>, streamId: string)
    requires LatestTakeHonest(m, es, streamId)
    ensures var s := SnapRun(es);
            && streamId in s.snapshots && s.snapshots[streamId].streamId == streamId
            && Honest(m, s.sys.streams, s.snapshots[streamId])
  {
    var init, e := es[..|es| - 1], es[|es| - 1];
    if !(e.Take? && e.streamId == streamId) {
      HonestStays(m, init, streamId);
      if e.Proceed? {
        HonestKept(m, SnapRun(init).sys, e.e, SnapRun(init).snapshots[streamId]);
      }
    }
  }

  /** Whatever was stored before, if the latest `take` of a stream was honest, then at every later point
      the snapshot and the events loaded after its version rebuild the state and version of a full replay. */
  lemma SnapshotStaysValid<S(!new)>(m: Replayer<S>, es: seq<SnapEvent>, streamId: string)
    requires RoundTrips(m) && LatestTakeHonest(m, es, streamId)
    ensures streamId in SnapRun(es).snapshots
    ensures var snap, stream := SnapRun(es).snapshots[streamId], StreamOf(SnapRun(es).sys.streams, streamId);
            && Replay(m.apply, m.decode(snap.state), After(stream, snap.version)) == Replay(m.apply, m.init, stream)
            && ReplayVersion(snap.version, After(stream, snap.version)) == |stream|
  {
    HonestStays(m, es, streamId);
    SnapRunIsRun(es);
    var s := SnapRun(es);
    SnapshotReplay(s.sys, streamId, s.snapshots[streamId].version, m.apply, m.init);
  }

  // ---------------------------------------------------------------- the classes

  class InMemoryEventStore {
    var streams: Streams

    constructor ()
      ensures streams == map[]
    {
      streams := map[];
    }

    /** The error carries the length found. */
    method Append(streamId: string, events: seq<StoredEvent>, expected: int) returns (r: Result<(), nat>)
      modifies this
      ensures r == if |StreamOf(old(streams), streamId)| == expected then Ok(()) else Err(|StreamOf(old(streams), streamId)|)
      ensures streams == old(streams)[streamId := StreamOf(old(streams), streamId) + if r.Ok? then events else []]
    {
      if streamId !in streams {
        streams := streams[streamId := []];
      }
      var stream := streams[streamId];
      assert stream + [] == stream;
      if |stream| != expected {
        return Err(|stream|);
      }
      streams := streams[streamId := stream + events];
      return Ok(());
    }

    method Load(streamId: string, from: int) returns (r: seq<StoredEvent>)
      ensures exists at :: Selects(StreamOf(streams, streamId), from, r, at)
      ensures r == After(StreamOf(streams, streamId), from)
    {
      r := [];
      if streamId in streams {
        var stream := streams[streamId];
        for i := 0 to |stream|
          invariant r == After(stream[..i], from)
        {
          assert stream[..i + 1][..i] == stream[..i];
          if stream[i].version > from {
            r := r + [stream[i]];
          }
        }
        assert stream[..|stream|] == stream;
      }
      ghost var at := AfterSelects(StreamOf(streams, streamId), from);
    }
  }

  /** An event-sourced aggregate; `applied` stands for the state that replay built up. */
  class AggregateRoot {
    const streamId: string
    var version: int
    var pending: seq<DomainEvent>
    var applied: seq<StoredEvent>

    constructor (id: string)
      ensures streamId == id && version == 0 && pending == [] && applied == []
    {
      streamId := id;
      version, pending, applied := 0, [], [];
    }

    method RaiseEvent(event: DomainEvent)
      modifies this`version, this`pending
      ensures version == old(version) + 1 && pending == old(pending) + [event]
    {
      pending := pending + [event];
      version := version + 1;
    }

    method PullEvents() returns (events: seq<DomainEvent>)
      modifies this`pending
      ensures events == old(pending) && pending == []
    {
      events := pending;
      pending := [];
    }
  }

  class EventSourcedRepository {
    const store: InMemoryEventStore

    constructor (s: InMemoryEventStore)
      ensures store == s
    {
      store := s;
    }

    /** None for an empty stream, else an aggregate that has applied every event, at the last version. */
    method Load(streamId: string) returns (found: AggregateRoot?)
      ensures found == null <==> After(StreamOf(store.streams, streamId), 0) == []
      ensures found != null ==>
                && fresh(found) && found.streamId == streamId && found.pending == []
                && found.applied == After(StreamOf(store.streams, streamId), 0)
                && found.version == LastVersion(found.applied)
    {
      var events := store.Load(streamId, 0);
      if events == [] {
        return null;
      }
      var agg := new AggregateRoot(streamId);
      for i := 0 to |events|
        invariant agg.pending == [] && agg.applied == events[..i] && agg.version == LastVersion(events[..i])
      {
        agg.applied := agg.applied + [events[i]];
        agg.version := events[i].version;
        assert events[..i + 1] == events[..i] + [events[i]];
      }
      assert events[..|events|] == events;
      return agg;
    }

    /** The pending events are drained whether or not the append succeeds. */
    method Save(agg: AggregateRoot) returns (r: Result<(), nat>)
      modifies agg`pending, store
      ensures agg.pending == []
      ensures old(agg.pending) == [] ==> r == Ok(()) && store.streams == old(store.streams)
      ensures old(agg.pending) != [] ==>
                var prior, stream := agg.version - |old(agg.pending)|, StreamOf(old(store.streams), agg.streamId);
                && (r.Ok? <==> |stream| == prior) && (r.Err? ==> r.error == |stream|)
                && store.streams == old(store.streams)[agg.streamId :=
                     stream + if r.Ok? then Stored(agg.streamId, prior, old(agg.pending)) else []]
    {
      var events := agg.PullEvents();
      if events == [] {
        return Ok(());
      }
      var prior := agg.version - |events|;
      r := store.Append(agg.streamId, Stored(agg.streamId, prior, events), prior);
    }
  }

  class InMemorySnapshotStore {
    var snapshots: Snapshots

    constructor ()
      ensures snapshots == map[]
    {
      snapshots := map[];
    }

    method Take(streamId: string, version: int, state: string)
      modifies this
      ensures snapshots == WithSnapshot(old(snapshots), streamId, version, state)
    {
      snapshots := snapshots[streamId := Snapshot(streamId, version, state)];
    }

    method Latest(streamId: string) returns (r: Option<Snapshot>)
      ensures r == if streamId in snapshots then Some(snapshots[streamId]) else None
    {
      r := if streamId in snapshots then Some(snapshots[streamId]) else None;
    }
  }
}

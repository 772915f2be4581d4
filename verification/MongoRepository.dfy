/**
 * `EventSourcedRepository` over `MongoEventStore`: many aggregates load, raise and save, and the
 * count and the single inserts of their saves interleave with everything else.
 */
module MongoRepositories {
  import opened Common
  import ES = EventSourcing
  import opened MongoEventStores

  /**
   * `version` and `pending` are the fields of AggregateRoot.  `view` lists the documents that the
   * object takes for the history of its stream: those it was rebuilt from, then those of its own
   * `calls` of save, in order.  `lost` counts raised events that somebody else pulled.
   */
  datatype Aggregate = Aggregate(streamId: string, version: int, pending: seq<ES.DomainEvent>,
                                 view: seq<Doc>, lost: nat, calls: seq<nat>)

  /** What a call of save was based on. */
  datatype Basis = Basis(view: seq<Doc>, lost: nat, calls: seq<nat>)

  datatype RepoSystem = RepoSystem(store: System, aggs: map<nat, Aggregate>, bases: map<nat, Basis>)

  datatype RepoEvent =
    | Create(a: nat, streamId: string)
    | Load(a: nat, streamId: string)
    | Raise(a: nat, event: ES.DomainEvent)
    | Pull(a: nat)
    | Save(a: nat, w: nat)
    | Proceed(e: Event)

  function DocsOf(batch: seq<StoredEvent>, w: nat): (r: seq<Doc>)
    ensures |r| == |batch| && forall i | 0 <= i < |r| :: r[i] == Doc(batch[i], w, i)
  {
    seq(|batch|, i requires 0 <= i < |batch| => Doc(batch[i], w, i))
  }

  function Prior(agg: Aggregate): int
  {
    agg.version - |agg.pending|
  }

  /** One step.  What `load` finds is the whole stream (`LoadReturnsTail`).  `Proceed` is a count or an
      insert of a save under way; only saves start appends. */
  function RepoStep(s: RepoSystem, e: RepoEvent): RepoSystem
  {
    match e
    case Create(a, streamId) =>
      if a in s.aggs then s else s.(aggs := s.aggs[a := Aggregate(streamId, 0, [], [], 0, [])])
    case Load(a, streamId) =>
      var docs := OfStream(s.store.col, streamId);
      if a in s.aggs || docs == [] then s
      else s.(aggs := s.aggs[a := Aggregate(streamId, docs[|docs| - 1].event.version, [], docs, 0, [])])
    case Raise(a, ev) =>
      if a !in s.aggs then s
      else s.(aggs := s.aggs[a := s.aggs[a].(pending := s.aggs[a].pending + [ev], version := s.aggs[a].version + 1)])
    case Pull(a) =>
      if a !in s.aggs then s
      else s.(aggs := s.aggs[a := s.aggs[a].(pending := [], lost := s.aggs[a].lost + |s.aggs[a].pending|)])
    case Save(a, w) =>
      if a !in s.aggs || s.aggs[a].pending == [] || w in s.store.writers then s else SaveStep(s, a, w)
    case Proceed(event) =>
      if event.Append? then s else s.(store := Step(s.store, event))
  }

  /** The events are pulled and the append starts; it has not touched the store yet. */
  function SaveStep(s: RepoSystem, a: nat, w: nat): RepoSystem
    requires a in s.aggs
  {
    var agg := s.aggs[a];
    var batch := ES.Stored(agg.streamId, Prior(agg), agg.pending);
    RepoSystem(Step(s.store, Append(w, agg.streamId, batch, Prior(agg))),
               s.aggs[a := agg.(pending := [], view := agg.view + DocsOf(batch, w), calls := agg.calls + [w])],
               s.bases[w := Basis(agg.view, agg.lost, agg.calls)])
  }

  const REPO_EMPTY := RepoSystem(EMPTY, map[], map[])

  function RepoRun(es: seq<RepoEvent>): RepoSystem
  {
    if es == [] then REPO_EMPTY else RepoStep(RepoRun(es[..|es| - 1]), es[|es| - 1])
  }

  ghost predicate RepoReachable(s: RepoSystem)
  {
    exists es :: RepoRun(es) == s
  }

  lemma RepoStepIsReachable(s: RepoSystem, e: RepoEvent)
    requires RepoReachable(s)
    ensures RepoReachable(RepoStep(s, e))
  {
    var es :| RepoRun(es) == s;
    assert (es + [e])[..|es|] == es;
    assert RepoRun(es + [e]) == RepoStep(s, e);
  }

  // ---------------------------------------------------------------- invariant

  /** The document stands at position p of the stream. */
  ghost predicate Landed(store: System, streamId: string, d: Doc, p: nat)
  {
    p < |OfStream(store.col, streamId)| && OfStream(store.col, streamId)[p] == d
  }

  /** One of the calls inserts the document at position p, if it gets that far. */
  ghost predicate Due(store: System, streamId: string, calls: seq<nat>, d: Doc, p: nat)
  {
    && d.writer in calls && d.writer in store.writers
    && var wr := store.writers[d.writer];
       && wr.streamId == streamId && d.index < |wr.batch| && wr.expected + d.index == p
       && d == Doc(wr.batch[d.index], d.writer, d.index)
  }

  /** The last event of the call's batch is part of the view. */
  ghost predicate InView(store: System, view: seq<Doc>, w: nat)
  {
    && w in store.writers && store.writers[w].batch != []
    && var n := |store.writers[w].batch| - 1;
       Doc(store.writers[w].batch[n], w, n) in view
  }

  ghost predicate Viewed(store: System, streamId: string, b: Basis)
  {
    && (b.lost == 0 ==> forall p: nat | p < |b.view| ::
          Landed(store, streamId, b.view[p], p) || Due(store, streamId, b.calls, b.view[p], p))
    && (forall w | w in b.calls :: InView(store, b.view, w))
  }

  ghost predicate AggregateInv(store: System, agg: Aggregate)
  {
    agg.version == |agg.view| + agg.lost + |agg.pending| && Viewed(store, agg.streamId, Basis(agg.view, agg.lost, agg.calls))
  }

  ghost predicate BasisInv(store: System, w: nat, b: Basis)
  {
    && w in store.writers && store.writers[w].batch != []
    && store.writers[w].expected == |b.view| + b.lost
    && Viewed(store, store.writers[w].streamId, b)
  }

  ghost predicate RepoInv(s: RepoSystem)
  {
    && Reachable(s.store)
    && (forall a | a in s.aggs :: AggregateInv(s.store, s.aggs[a]))
    && (forall w | w in s.bases :: BasisInv(s.store, w, s.bases[w]))
  }

  /** Streams only grow, and a call keeps what it was called with. */
  ghost predicate Extends(store: System, store': System)
  {
    && (forall streamId: string :: OfStream(store.col, streamId) <= OfStream(store'.col, streamId))
    && (forall w | w in store.writers ::
          && w in store'.writers && store'.writers[w].streamId == store.writers[w].streamId
          && store'.writers[w].batch == store.writers[w].batch && store'.writers[w].expected == store.writers[w].expected)
  }

  lemma StreamsGrow(store: System, e: Event, streamId: string)
    ensures OfStream(store.col, streamId) <= OfStream(Step(store, e).col, streamId)
  {
    var col, col' := store.col, Step(store, e).col;
    if col' != col {
      OfStreamSnoc(col, col'[|col|], streamId);
      assert col' == col + [col'[|col|]];
    }
  }

  lemma CallsStay(store: System, e: Event, w: nat)
    requires w in store.writers
    ensures var wr, writers := store.writers[w], Step(store, e).writers;
            && w in writers && writers[w].streamId == wr.streamId
            && writers[w].batch == wr.batch && writers[w].expected == wr.expected
  {
  }

  lemma StepExtends(store: System, e: Event)
    ensures Extends(store, Step(store, e))
  {
    forall streamId: string ensures OfStream(store.col, streamId) <= OfStream(Step(store, e).col, streamId) {
      StreamsGrow(store, e, streamId);
    }
    forall w | w in store.writers
      ensures && w in Step(store, e).writers && Step(store, e).writers[w].streamId == store.writers[w].streamId
              && Step(store, e).writers[w].batch == store.writers[w].batch
              && Step(store, e).writers[w].expected == store.writers[w].expected
    {
      CallsStay(store, e, w);
    }
  }

  lemma ViewedLater(store: System, store': System, streamId: string, b: Basis)
    requires Viewed(store, streamId, b) && Extends(store, store')
    ensures Viewed(store', streamId, b)
  {
    forall w | w in b.calls ensures InView(store', b.view, w) {
      assert InView(store, b.view, w);
    }
    assert OfStream(store.col, streamId) <= OfStream(store'.col, streamId);
  }

  lemma StoreStepKeepsInv(s: RepoSystem, e: Event)
    requires RepoInv(s) && !e.Append?
    ensures RepoInv(s.(store := Step(s.store, e)))
  {
    var store' := Step(s.store, e);
    StepIsReachable(s.store, e);
    StepExtends(s.store, e);
    forall a | a in s.aggs ensures AggregateInv(store', s.aggs[a]) {
      ViewedLater(s.store, store', s.aggs[a].streamId, Basis(s.aggs[a].view, s.aggs[a].lost, s.aggs[a].calls));
    }
    forall w | w in s.bases ensures BasisInv(store', w, s.bases[w]) {
      ViewedLater(s.store, store', s.store.writers[w].streamId, s.bases[w]);
    }
  }

  /** The view of the saving aggregate, with its own batch behind it. */
  lemma ViewedWithBatch(store: System, streamId: string, b: Basis, w: nat, batch: seq<StoredEvent>)
    requires Viewed(store, streamId, b) && batch != [] && w in store.writers
    requires store.writers[w].streamId == streamId && store.writers[w].batch == batch
    requires store.writers[w].expected == |b.view| + b.lost
    ensures Viewed(store, streamId, Basis(b.view + DocsOf(batch, w), b.lost, b.calls + [w]))
  {
    var view, calls := b.view + DocsOf(batch, w), b.calls + [w];
    if b.lost == 0 {
      forall p: nat | p < |view| ensures Landed(store, streamId, view[p], p) || Due(store, streamId, calls, view[p], p) {
        if p < |b.view| {
          assert view[p] == b.view[p];
        } else {
          assert view[p] == Doc(batch[p - |b.view|], w, p - |b.view|);
        }
      }
    }
    forall v | v in calls ensures InView(store, view, v) {
      if v == w {
        assert view[|view| - 1] == Doc(batch[|batch| - 1], w, |batch| - 1);
      } else {
        assert InView(store, b.view, v);
      }
    }
  }

  lemma SaveKeepsInv(s: RepoSystem, a: nat, w: nat)
    requires RepoInv(s) && a in s.aggs && s.aggs[a].pending != [] && w !in s.store.writers
    ensures RepoInv(SaveStep(s, a, w))
  {
    var agg, s' := s.aggs[a], SaveStep(s, a, w);
    var batch, b := ES.Stored(agg.streamId, Prior(agg), agg.pending), Basis(agg.view, agg.lost, agg.calls);
    var call := Append(w, agg.streamId, batch, Prior(agg));
    assert AggregateInv(s.store, agg);
    StepIsReachable(s.store, call);
    StepExtends(s.store, call);
    ViewedLater(s.store, s'.store, agg.streamId, b);
    ViewedWithBatch(s'.store, agg.streamId, b, w, batch);
    forall c | c in s'.aggs ensures AggregateInv(s'.store, s'.aggs[c]) {
      if c != a {
        ViewedLater(s.store, s'.store, s.aggs[c].streamId, Basis(s.aggs[c].view, s.aggs[c].lost, s.aggs[c].calls));
      }
    }
    forall v | v in s'.bases ensures BasisInv(s'.store, v, s'.bases[v]) {
      if v != w {
        assert BasisInv(s.store, v, s.bases[v]);
        ViewedLater(s.store, s'.store, s.store.writers[v].streamId, s.bases[v]);
      }
    }
  }

  lemma LoadKeepsInv(s: RepoSystem, a: nat, streamId: string)
    requires RepoInv(s)
    ensures RepoInv(RepoStep(s, Load(a, streamId)))
  {
    var docs := OfStream(s.store.col, streamId);
    HistoryIsGapFree(s.store, streamId, 0);
    if docs != [] {
      var loaded := Basis(docs, 0, []);
      forall p: nat | p < |docs| ensures Landed(s.store, streamId, loaded.view[p], p) {
      }
      assert Viewed(s.store, streamId, loaded);
      assert AggregateInv(s.store, Aggregate(streamId, |docs|, [], docs, 0, []));
    }
  }

  lemma RepoStepKeepsInv(s: RepoSystem, e: RepoEvent)
    requires RepoInv(s)
    ensures RepoInv(RepoStep(s, e))
  {
    match e
    case Create(_, _) =>
    case Load(a, streamId) => LoadKeepsInv(s, a, streamId);
    case Raise(a, _) => if a in s.aggs { assert AggregateInv(s.store, s.aggs[a]); }
    case Pull(a) => if a in s.aggs { assert AggregateInv(s.store, s.aggs[a]); }
    case Save(a, w) =>
      if a in s.aggs && s.aggs[a].pending != [] && w !in s.store.writers {
        SaveKeepsInv(s, a, w);
      }
    case Proceed(event) => if !event.Append? { StoreStepKeepsInv(s, event); }
  }

  lemma {:induction false} RepoRunKeepsInv(es: seq<RepoEvent>)
    ensures RepoInv(RepoRun(es))
  {
    if es == [] {
      assert Run([]) == EMPTY && NumberedCalls([]);
    } else {
      RepoRunKeepsInv(es[..|es| - 1]);
      RepoStepKeepsInv(RepoRun(es[..|es| - 1]), es[|es| - 1]);
    }
  }

  lemma RepoReachableInv(s: RepoSystem)
    requires RepoReachable(s)
    ensures RepoInv(s)
  {
    var es :| RepoRun(es) == s;
    RepoRunKeepsInv(es);
  }

  // ---------------------------------------------------------------- no lost update

  /** If all earlier calls of the aggregate returned and it lost nothing, its view is the stream. */
  lemma IntactViewIsPrefix(store: System, w: nat, b: Basis)
    requires Reachable(store) && BasisInv(store, w, b) && store.writers[w].phase == Returned && b.lost == 0
    requires forall v | v in b.calls :: v in store.writers && store.writers[v].phase == Returned
    ensures var wr := store.writers[w];
            wr.expected <= |OfStream(store.col, wr.streamId)| && OfStream(store.col, wr.streamId)[..wr.expected] == b.view
  {
    var wr := store.writers[w];
    var docs := OfStream(store.col, wr.streamId);
    WinnerOwnsItsRange(store, w);
    forall p: nat | p < |b.view| ensures docs[p] == b.view[p] {
      if Due(store, wr.streamId, b.calls, b.view[p], p) {
        WinnerOwnsItsRange(store, b.view[p].writer);
      }
    }
  }

  /** A call whose last document is stored has returned. */
  lemma StoredWholeMeansReturned(store: System, v: nat, streamId: string)
    requires Reachable(store) && v in store.writers && store.writers[v].batch != []
    requires var n := |store.writers[v].batch| - 1; Doc(store.writers[v].batch[n], v, n) in OfStream(store.col, streamId)
    ensures store.writers[v].phase == Returned
  {
    ReachableInv(store);
    var n := |store.writers[v].batch| - 1;
    OfStreamMembers(store.col, streamId, Doc(store.writers[v].batch[n], v, n));
    assert WriterInv(store.col, v, store.writers[v]);
  }

  /**
   * No lost update, in every interleaving: the history that a successful save was based on is
   * exactly the events at positions 0..expected-1 of the stream if and only if every earlier save
   * of the same object succeeded too and nobody else pulled its events.
   */
  lemma ReturnedSaveSawEverything(s: RepoSystem, w: nat)
    requires RepoReachable(s) && w in s.bases && w in s.store.writers && s.store.writers[w].phase == Returned
    ensures var wr, b := s.store.writers[w], s.bases[w];
            var docs := OfStream(s.store.col, wr.streamId);
            && 0 <= wr.expected && wr.expected + |wr.batch| <= |docs|
            && (docs[..wr.expected] == b.view <==>
                  b.lost == 0 && forall v | v in b.calls :: v in s.store.writers && s.store.writers[v].phase == Returned)
  {
    RepoReachableInv(s);
    var store, b := s.store, s.bases[w];
    var wr := store.writers[w];
    var docs := OfStream(store.col, wr.streamId);
    assert BasisInv(store, w, b);
    WinnerOwnsItsRange(store, w);
    if docs[..wr.expected] == b.view {
      forall v | v in b.calls ensures v in store.writers && store.writers[v].phase == Returned {
        assert InView(store, b.view, v);
        assert forall d | d in b.view :: d in docs;
        StoredWholeMeansReturned(store, v, wr.streamId);
      }
    }
    if b.lost == 0 && forall v | v in b.calls :: v in store.writers && store.writers[v].phase == Returned {
      IntactViewIsPrefix(store, w, b);
    }
  }

  /** A save pulls the pending events and starts an append of exactly them, in order, numbered on from the
      version the aggregate had before it raised them; the aggregate is drained and keeps its version. */
  lemma SaveStartsExactly(s: RepoSystem, a: nat, w: nat)
    requires a in s.aggs && s.aggs[a].pending != [] && w !in s.store.writers
    ensures var s', agg := RepoStep(s, Save(a, w)), s.aggs[a];
            && s'.store.col == s.store.col && w in s'.store.writers && s'.store.writers[w].phase == Counting
            && s'.store.writers[w].streamId == agg.streamId
            && s'.store.writers[w].expected == agg.version - |agg.pending|
            && |s'.store.writers[w].batch| == |agg.pending|
            && (forall i | 0 <= i < |agg.pending| ::
                  s'.store.writers[w].batch[i] == StoredEvent(agg.streamId, agg.version - |agg.pending| + i + 1,
                                                              agg.pending[i].eventType, agg.pending[i].payload))
            && a in s'.aggs && s'.aggs[a].pending == [] && s'.aggs[a].version == agg.version
  {
  }

  /** A load rebuilds a new object from the whole stream, at its length; an empty stream gives none. */
  lemma LoadSeesEverything(s: RepoSystem, a: nat, streamId: string)
    requires RepoReachable(s) && a !in s.aggs
    ensures var s', docs := RepoStep(s, Load(a, streamId)), OfStream(s.store.col, streamId);
            && s'.store == s.store
            && s'.aggs == if docs == [] then s.aggs else s.aggs[a := Aggregate(streamId, |docs|, [], docs, 0, [])]
  {
    RepoReachableInv(s);
    HistoryIsGapFree(s.store, streamId, 0);
  }

  // ---------------------------------------------------------------- a save that did not see everything

  lemma StoreStepIsReachable(s: RepoSystem, e: Event)
    requires RepoReachable(s) && !e.Append?
    ensures RepoReachable(s.(store := Step(s.store, e)))
  {
    RepoStepIsReachable(s, Proceed(e));
  }

  /** The store alone: a call with one event that finds the version it expects. */
  lemma SingleInsert(s: RepoSystem, w: nat) returns (s': RepoSystem)
    requires RepoReachable(s) && w in s.store.writers && |s.store.writers[w].batch| == 1
    requires s.store.writers[w].phase == Counting && s.store.writers[w].inserted == 0
    requires |OfStream(s.store.col, s.store.writers[w].streamId)| == s.store.writers[w].expected
    ensures RepoReachable(s') && s'.aggs == s.aggs && s'.bases == s.bases
    ensures s'.store.writers == s.store.writers[w := s.store.writers[w].(inserted := 1, phase := Returned)]
    ensures |OfStream(s'.store.col, s.store.writers[w].streamId)| == s.store.writers[w].expected + 1
  {
    var wr := s.store.writers[w];
    StoreStepIsReachable(s, Count(w));
    var t := s.store.(writers := s.store.writers[w := wr.(phase := Inserting)]);
    assert Step(s.store, Count(w)) == t;
    RepoReachableInv(s.(store := t));
    NextIsFree(t, w);
    StoreStepIsReachable(s.(store := t), Insert(w));
    s' := s.(store := Step(t, Insert(w)));
    OfStreamSnoc(s.store.col, Doc(wr.batch[0], w, 0), wr.streamId);
  }

  /** One event is raised and saved while nobody else is at work. */
  lemma RaiseAndSave(s: RepoSystem, a: nat, w: nat, ev: ES.DomainEvent) returns (s': RepoSystem)
    requires RepoReachable(s) && a in s.aggs && s.aggs[a].pending == [] && w !in s.store.writers
    requires s.aggs[a].version == |OfStream(s.store.col, s.aggs[a].streamId)|
    ensures RepoReachable(s') && w in s'.store.writers && s'.store.writers.Keys == s.store.writers.Keys + {w}
    ensures var wr := s'.store.writers[w];
            wr.phase == Returned && wr.streamId == s.aggs[a].streamId && wr.expected == s.aggs[a].version
    ensures |OfStream(s'.store.col, s.aggs[a].streamId)| == s.aggs[a].version + 1
    ensures w in s'.bases && s'.bases[w] == Basis(s.aggs[a].view, s.aggs[a].lost, s.aggs[a].calls)
    ensures forall v | v in s.store.writers :: v in s'.store.writers && s'.store.writers[v] == s.store.writers[v]
    ensures forall c | c in s.aggs && c != a :: c in s'.aggs && s'.aggs[c] == s.aggs[c]
  {
    var t := Raises(s, a, ev);
    RepoStepIsReachable(t, Save(a, w));
    s' := SingleInsert(SaveStep(t, a, w), w);
  }

  /** Two objects of one stream, neither of which has done anything. */
  lemma TwoObjects() returns (s: RepoSystem)
    ensures RepoReachable(s) && s.store == EMPTY && s.bases == map[]
    ensures s.aggs == map[0 := Aggregate("s", 0, [], [], 0, []), 1 := Aggregate("s", 0, [], [], 0, [])]
  {
    assert RepoRun([]) == REPO_EMPTY;
    RepoStepIsReachable(REPO_EMPTY, Create(0, "s"));
    var t := REPO_EMPTY.(aggs := map[0 := Aggregate("s", 0, [], [], 0, [])]);
    assert RepoStep(REPO_EMPTY, Create(0, "s")) == t;
    RepoStepIsReachable(t, Create(1, "s"));
    s := RepoStep(t, Create(1, "s"));
  }

  /** Object a raises an event; nothing else changes. */
  lemma Raises(s: RepoSystem, a: nat, ev: ES.DomainEvent) returns (s': RepoSystem)
    requires RepoReachable(s) && a in s.aggs && s.aggs[a].pending == []
    ensures RepoReachable(s')
    ensures s' == s.(aggs := s.aggs[a := s.aggs[a].(pending := [ev], version := s.aggs[a].version + 1)])
  {
    assert [] + [ev] == [ev];
    RepoStepIsReachable(s, Raise(a, ev));
    s' := RepoStep(s, Raise(a, ev));
  }

  /** Somebody pulls the first event of an object; another object saves one; and the save that follows
      passes the version check without having seen it. */
  lemma PulledEventHidesUpdate() returns (s: RepoSystem, w: nat)
    ensures RepoReachable(s) && w in s.bases && w in s.store.writers && s.store.writers[w].phase == Returned
    ensures var docs := OfStream(s.store.col, s.store.writers[w].streamId);
            s.store.writers[w].expected == 1 < |docs| && s.bases[w] == Basis([], 1, [])
  {
    var ev := ES.DomainEvent("e", "");
    s := TwoObjects();
    s := Raises(s, 0, ev);
    RepoStepIsReachable(s, Pull(0));
    s := RepoStep(s, Pull(0));
    assert s.aggs[0] == Aggregate("s", 1, [], [], 1, []);
    s := RaiseAndSave(s, 1, 0, ev);
    s := RaiseAndSave(s, 0, 1, ev);
    w := 1;
  }

  /** A save of the object whose version check fails. */
  lemma SaveConflicts(s: RepoSystem, a: nat, w: nat) returns (s': RepoSystem)
    requires RepoReachable(s) && a in s.aggs && s.aggs[a].pending != [] && w !in s.store.writers
    requires |OfStream(s.store.col, s.aggs[a].streamId)| != Prior(s.aggs[a])
    ensures RepoReachable(s') && s'.aggs == SaveStep(s, a, w).aggs && s'.store.col == s.store.col
    ensures s'.store.writers.Keys == s.store.writers.Keys + {w} && s'.store.writers[w].phase.Raised?
  {
    RepoStepIsReachable(s, Save(a, w));
    var t := SaveStep(s, a, w);
    StoreStepIsReachable(t, Count(w));
    s' := t.(store := Step(t.store, Count(w)));
  }

  /** Object 1 saves; object 0 meets a conflict, raises another event and saves again: the version check
      passes, though object 0 never saw the event of object 1. */
  lemma ReuseHidesUpdate() returns (s: RepoSystem, w: nat)
    ensures RepoReachable(s) && w in s.bases && w in s.store.writers && s.store.writers[w].phase == Returned
    ensures s.bases[w].lost == 0 && s.bases[w].calls == [1] && 1 in s.store.writers && s.store.writers[1].phase.Raised?
    ensures s.store.writers[w].expected == 1 && |OfStream(s.store.col, s.store.writers[w].streamId)| == 2
  {
    var ev := ES.DomainEvent("e", "");
    s := TwoObjects();
    s := RaiseAndSave(s, 1, 0, ev);
    s := Raises(s, 0, ev);
    s := SaveConflicts(s, 0, 1);
    assert s.aggs[0].calls == [] + [1] == [1];
    s := RaiseAndSave(s, 0, 2, ev);
    w := 2;
  }
}

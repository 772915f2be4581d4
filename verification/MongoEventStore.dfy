/**
 * `MongoEventStore.append` as a protocol: any number of writers, each of which counts the
 * stream, compares, and then inserts its batch one document at a time under a unique
 * (stream, version) index.  Every store command is one atomic step and the steps of
 * different writers interleave freely.
 */
module MongoEventStores {
  import opened Common

  /** A stored document.  `writer` and `index` record which append call inserted it and from
      which place of that call's batch; the code never reads them. */
  datatype Doc = Doc(event: StoredEvent, writer: nat, index: nat)

  /** The documents of one stream, in insertion order. */
  function OfStream(col: seq<Doc>, streamId: string): seq<Doc>
  {
    if col == [] then []
    else
      var rest := OfStream(col[..|col| - 1], streamId);
      if col[|col| - 1].event.streamId == streamId then rest + [col[|col| - 1]] else rest
  }

  lemma OfStreamSnoc(col: seq<Doc>, d: Doc, streamId: string)
    ensures OfStream(col + [d], streamId)
         == if d.event.streamId == streamId then OfStream(col, streamId) + [d] else OfStream(col, streamId)
  {
    assert (col + [d])[..|col|] == col;
  }

  lemma {:induction false} OfStreamMembers(col: seq<Doc>, streamId: string, d: Doc)
    ensures d in OfStream(col, streamId) <==> d in col && d.event.streamId == streamId
  {
    if col != [] {
      OfStreamMembers(col[..|col| - 1], streamId, d);
      assert col == col[..|col| - 1] + [col[|col| - 1]];
    }
  }

  /** The unique index on (stream_id, version) already holds this key. */
  predicate Taken(col: seq<Doc>, streamId: string, version: int)
  {
    exists d | d in col :: d.event.streamId == streamId && d.event.version == version
  }

  datatype Phase = Counting | Inserting | Recounting | Returned | Raised(actual: nat)

  datatype Writer = Writer(streamId: string, batch: seq<StoredEvent>, expected: int, inserted: nat, phase: Phase)

  datatype System = System(col: seq<Doc>, writers: map<nat, Writer>)

  datatype Event =
    | Append(w: nat, streamId: string, batch: seq<StoredEvent>, expected: int)
    | Count(w: nat)
    | Insert(w: nat)
    | Recount(w: nat)

  const EMPTY := System([], map[])

  /** One scheduling step; an event whose writer is not at that point changes nothing. */
  function Step(s: System, e: Event): System
  {
    match e
    case Append(w, streamId, batch, expected) =>
      if w in s.writers then s
      else s.(writers := s.writers[w := Writer(streamId, batch, expected, 0, if batch == [] then Returned else Counting)])
    case Count(w) =>
      if w !in s.writers || s.writers[w].phase != Counting then s
      else
        var current := |OfStream(s.col, s.writers[w].streamId)|;
        s.(writers := s.writers[w := s.writers[w].(phase :=
          if current != s.writers[w].expected then Raised(current) else Inserting)])
    case Insert(w) =>
      if w !in s.writers || s.writers[w].phase != Inserting || s.writers[w].inserted >= |s.writers[w].batch| then s
      else InsertNext(s, w)
    case Recount(w) =>
      if w !in s.writers || s.writers[w].phase != Recounting then s
      else s.(writers := s.writers[w := s.writers[w].(phase := Raised(|OfStream(s.col, s.writers[w].streamId)|))])
  }

  function InsertNext(s: System, w: nat): System
    requires w in s.writers && s.writers[w].inserted < |s.writers[w].batch|
  {
    var wr := s.writers[w];
    var ev := wr.batch[wr.inserted];
    if Taken(s.col, ev.streamId, ev.version) then
      s.(writers := s.writers[w := wr.(phase := Recounting)])
    else
      var n := wr.inserted + 1;
      System(s.col + [Doc(ev, w, wr.inserted)],
             s.writers[w := wr.(inserted := n, phase := if n == |wr.batch| then Returned else Inserting)])
  }

  function Run(es: seq<Event>): System
  {
    if es == [] then EMPTY else Step(Run(es[..|es| - 1]), es[|es| - 1])
  }

  /** What the repository guarantees of every batch it appends. */
  ghost predicate NumberedCall(e: Event)
  {
    e.Append? ==> Numbered(e.batch, e.streamId, e.expected)
  }

  ghost predicate NumberedCalls(es: seq<Event>)
  {
    forall e | e in es :: NumberedCall(e)
  }

  /** Some interleaving of numbered append calls leads to this state. */
  ghost predicate Reachable(s: System)
  {
    exists es :: NumberedCalls(es) && Run(es) == s
  }

  lemma StepIsReachable(s: System, e: Event)
    requires Reachable(s) && NumberedCall(e)
    ensures Reachable(Step(s, e))
  {
    var es :| NumberedCalls(es) && Run(es) == s;
    assert (es + [e])[..|es|] == es;
    assert Run(es + [e]) == Step(s, e);
  }

  // ---------------------------------------------------------------- invariant

  /** The stream holds exactly the versions 1..n, in that order. */
  ghost predicate GapFree(col: seq<Doc>)
  {
    forall streamId: string, i: nat | i < |OfStream(col, streamId)| ::
      OfStream(col, streamId)[i].event.version == i + 1
  }

  /** The writer's first `inserted` events sit at positions expected, expected+1, ... of its stream. */
  ghost predicate Owns(col: seq<Doc>, w: nat, wr: Writer)
  {
    && wr.inserted <= |wr.batch|
    && (wr.inserted > 0 ==> 0 <= wr.expected && wr.expected + wr.inserted <= |OfStream(col, wr.streamId)|)
    && Placed(OfStream(col, wr.streamId), w, wr.batch, wr.expected, wr.inserted)
  }

  /** The first n events of the batch stand in `docs` from position `at` on. */
  ghost predicate Placed(docs: seq<Doc>, w: nat, batch: seq<StoredEvent>, at: int, n: nat)
    requires n <= |batch| && (n > 0 ==> 0 <= at && at + n <= |docs|)
  {
    forall p | at <= p < at + n :: docs[p] == Doc(batch[p - at], w, p - at)
  }

  lemma PlacedOneMore(docs: seq<Doc>, w: nat, batch: seq<StoredEvent>, at: nat, n: nat)
    requires n < |batch| && |docs| == at + n && Placed(docs, w, batch, at, n)
    ensures Placed(docs + [Doc(batch[n], w, n)], w, batch, at, n + 1)
  {
  }

  ghost predicate WriterInv(col: seq<Doc>, w: nat, wr: Writer)
  {
    && Numbered(wr.batch, wr.streamId, wr.expected)
    && Owns(col, w, wr)
    && (wr.phase == Counting ==> wr.inserted == 0 && wr.batch != [])
    && (wr.phase == Inserting ==>
          0 <= wr.expected && wr.inserted < |wr.batch| && wr.expected + wr.inserted <= |OfStream(col, wr.streamId)|)
    && (wr.phase == Returned ==> wr.inserted == |wr.batch|)
    && (wr.phase == Recounting || wr.phase.Raised? ==> wr.inserted < |wr.batch|)
    && (wr.phase == Recounting ==> wr.expected + wr.inserted < |OfStream(col, wr.streamId)|)
    && (wr.phase.Raised? ==> wr.phase.actual <= |OfStream(col, wr.streamId)| && RealConflict(wr, wr.phase.actual))
  }

  /** The version reported with the error differs from the expected one, and lies behind what was stored. */
  ghost predicate RealConflict(wr: Writer, actual: nat)
  {
    actual != wr.expected && (wr.inserted > 0 ==> wr.expected + wr.inserted < actual)
  }

  /** Every document is there because some call put it there, and counted it. */
  ghost predicate Attributed(s: System)
  {
    forall d | d in s.col ::
      && d.writer in s.writers && d.index < s.writers[d.writer].inserted <= |s.writers[d.writer].batch|
      && d.event == s.writers[d.writer].batch[d.index]
  }

  ghost predicate Inv(s: System)
  {
    && GapFree(s.col)
    && (forall w | w in s.writers :: WriterInv(s.col, w, s.writers[w]))
    && Attributed(s)
  }

  lemma TakenIsOccupied(col: seq<Doc>, streamId: string, version: int)
    requires GapFree(col)
    ensures Taken(col, streamId, version) <==> 1 <= version <= |OfStream(col, streamId)|
  {
    var docs := OfStream(col, streamId);
    if Taken(col, streamId, version) {
      var d :| d in col && d.event.streamId == streamId && d.event.version == version;
      OfStreamMembers(col, streamId, d);
      var i :| 0 <= i < |docs| && docs[i] == d;
    }
    if 1 <= version <= |docs| {
      OfStreamMembers(col, streamId, docs[version - 1]);
    }
  }

  lemma GapFreeSnoc(col: seq<Doc>, d: Doc)
    requires GapFree(col) && d.event.version == |OfStream(col, d.event.streamId)| + 1
    ensures GapFree(col + [d])
  {
    forall streamId: string, i: nat | i < |OfStream(col + [d], streamId)|
      ensures OfStream(col + [d], streamId)[i].event.version == i + 1
    {
      OfStreamSnoc(col, d, streamId);
    }
  }

  lemma WriterInvLater(col: seq<Doc>, d: Doc, w: nat, wr: Writer)
    requires WriterInv(col, w, wr)
    ensures WriterInv(col + [d], w, wr)
  {
    OfStreamSnoc(col, d, wr.streamId);
  }

  lemma WriterInvInsert(col: seq<Doc>, w: nat, wr: Writer)
    requires WriterInv(col, w, wr) && wr.phase == Inserting
    requires |OfStream(col, wr.streamId)| == wr.expected + wr.inserted
    ensures var n := wr.inserted + 1;
            WriterInv(col + [Doc(wr.batch[wr.inserted], w, wr.inserted)], w,
                      wr.(inserted := n, phase := if n == |wr.batch| then Returned else Inserting))
  {
    OfStreamSnoc(col, Doc(wr.batch[wr.inserted], w, wr.inserted), wr.streamId);
    PlacedOneMore(OfStream(col, wr.streamId), w, wr.batch, wr.expected, wr.inserted);
  }

  lemma WritersKeepInv(s: System, s': System, w: nat, d: Doc)
    requires forall v | v in s.writers :: WriterInv(s.col, v, s.writers[v])
    requires s'.col == s.col + [d] && w in s'.writers && s'.writers == s.writers[w := s'.writers[w]]
    requires WriterInv(s'.col, w, s'.writers[w])
    ensures forall v | v in s'.writers :: WriterInv(s'.col, v, s'.writers[v])
  {
    forall v | v in s'.writers && v != w ensures WriterInv(s'.col, v, s'.writers[v]) {
      WriterInvLater(s.col, d, v, s.writers[v]);
    }
  }

  lemma AttributedLater(s: System, s': System, w: nat, d: Doc)
    requires Attributed(s) && s'.col == s.col + [d] && d.writer == w && w in s'.writers
    requires s'.writers == s.writers[w := s'.writers[w]] && d.index < s'.writers[w].inserted <= |s'.writers[w].batch|
    requires d.event == s'.writers[w].batch[d.index]
    requires w in s.writers && s.writers[w].inserted <= s'.writers[w].inserted && s.writers[w].batch == s'.writers[w].batch
    ensures Attributed(s')
  {
  }

  /** The next free version is stored. */
  lemma StoreKeepsInv(s: System, s': System, w: nat, d: Doc)
    requires Inv(s) && w in s.writers && s.writers[w].phase == Inserting
    requires |OfStream(s.col, s.writers[w].streamId)| == s.writers[w].expected + s.writers[w].inserted
    requires d == Doc(s.writers[w].batch[s.writers[w].inserted], w, s.writers[w].inserted)
    requires s'.col == s.col + [d] && w in s'.writers && s'.writers == s.writers[w := s'.writers[w]]
    requires var wr, n := s.writers[w], s.writers[w].inserted + 1;
             s'.writers[w] == wr.(inserted := n, phase := if n == |wr.batch| then Returned else Inserting)
    ensures Inv(s')
  {
    assert WriterInv(s.col, w, s.writers[w]);
    GapFreeSnoc(s.col, d);
    WriterInvInsert(s.col, w, s.writers[w]);
    WritersKeepInv(s, s', w, d);
    AttributedLater(s, s', w, d);
  }

  lemma InsertKeepsInv(s: System, w: nat)
    requires Inv(s) && w in s.writers && s.writers[w].phase == Inserting
    ensures Inv(InsertNext(s, w))
  {
    var wr := s.writers[w];
    assert WriterInv(s.col, w, wr);
    var ev := wr.batch[wr.inserted];
    TakenIsOccupied(s.col, ev.streamId, ev.version);
    if Taken(s.col, ev.streamId, ev.version) {
      MoveKeepsInv(s, w, wr.(phase := Recounting));
    } else {
      StoreKeepsInv(s, InsertNext(s, w), w, Doc(ev, w, wr.inserted));
    }
  }

  /** A step of one writer that stores nothing. */
  lemma MoveKeepsInv(s: System, w: nat, wr: Writer)
    requires Inv(s) && WriterInv(s.col, w, wr)
    requires w in s.writers ==> wr.inserted == s.writers[w].inserted && wr.batch == s.writers[w].batch
    ensures Inv(s.(writers := s.writers[w := wr]))
  {
  }

  lemma StepKeepsInv(s: System, e: Event)
    requires Inv(s) && NumberedCall(e)
    ensures Inv(Step(s, e))
  {
    if e.w in s.writers {
      assert WriterInv(s.col, e.w, s.writers[e.w]);
    }
    if Step(s, e) != s {
      if e.Insert? {
        InsertKeepsInv(s, e.w);
      } else {
        MoveKeepsInv(s, e.w, Step(s, e).writers[e.w]);
      }
    }
  }

  lemma {:induction false} RunKeepsInv(es: seq<Event>)
    requires NumberedCalls(es)
    ensures Inv(Run(es))
  {
    if es != [] {
      RunKeepsInv(es[..|es| - 1]);
      StepKeepsInv(Run(es[..|es| - 1]), es[|es| - 1]);
    }
  }

  lemma ReachableInv(s: System)
    requires Reachable(s)
    ensures Inv(s)
  {
    var es :| NumberedCalls(es) && Run(es) == s;
    RunKeepsInv(es);
  }

  // ---------------------------------------------------------------- theorems

  /** In every interleaving each stream holds exactly versions 1..n, each written once. */
  lemma HistoryIsGapFree(s: System, streamId: string, version: int)
    requires Reachable(s)
    ensures var docs := OfStream(s.col, streamId);
            && (forall i | 0 <= i < |docs| :: docs[i].event.version == i + 1)
            && (Taken(s.col, streamId, version) <==> 1 <= version <= |docs|)
  {
    ReachableInv(s);
    TakenIsOccupied(s.col, streamId, version);
  }

  /** A call that returns without a conflict owns all of expected+1..expected+k, in its own order. */
  lemma WinnerOwnsItsRange(s: System, w: nat)
    requires Reachable(s) && w in s.writers && s.writers[w].phase == Returned && s.writers[w].batch != []
    ensures var wr := s.writers[w];
            var docs := OfStream(s.col, wr.streamId);
            && 0 <= wr.expected && wr.expected + |wr.batch| <= |docs|
            && forall p | wr.expected <= p < wr.expected + |wr.batch| ::
                 docs[p] == Doc(wr.batch[p - wr.expected], w, p - wr.expected)
  {
    ReachableInv(s);
    assert WriterInv(s.col, w, s.writers[w]);
  }

  /** Two calls that both return wrote disjoint ranges; in particular they never share `expected`. */
  lemma WinnersAreDisjoint(s: System, v: nat, w: nat)
    requires Reachable(s) && v != w
    requires v in s.writers && s.writers[v].phase == Returned && s.writers[v].batch != []
    requires w in s.writers && s.writers[w].phase == Returned && s.writers[w].batch != []
    requires s.writers[v].streamId == s.writers[w].streamId
    ensures var a, b := s.writers[v], s.writers[w];
            a.expected + |a.batch| <= b.expected || b.expected + |b.batch| <= a.expected
  {
    var a, b := s.writers[v], s.writers[w];
    WinnerOwnsItsRange(s, v);
    WinnerOwnsItsRange(s, w);
    var docs := OfStream(s.col, a.streamId);
    assert docs[a.expected].writer == v && docs[b.expected].writer == w;
  }

  /** A call that raised met a real conflict, and left a proper prefix of its batch behind and nothing else. */
  lemma LoserLeavesPrefix(s: System, w: nat)
    requires Reachable(s) && w in s.writers && s.writers[w].phase.Raised?
    ensures var wr := s.writers[w];
            && wr.inserted < |wr.batch|
            && RealConflict(wr, wr.phase.actual)
            && Owns(s.col, w, wr)
            && forall d | d in s.col && d.writer == w :: d.index < wr.inserted && d.event == wr.batch[d.index]
  {
    ReachableInv(s);
    assert WriterInv(s.col, w, s.writers[w]);
  }

  /** The version check: it passes exactly if the stream is as long as expected; otherwise the error reports
      that length and nothing is stored. */
  lemma ChecksExactly(s: System, w: nat)
    requires w in s.writers && s.writers[w].phase == Counting
    ensures var s', length := Step(s, Count(w)), |OfStream(s.col, s.writers[w].streamId)|;
            && s'.col == s.col
            && s'.writers == s.writers[w := s.writers[w].(phase :=
                               if length == s.writers[w].expected then Inserting else Raised(length))]
  {
  }

  /** One insert: stored exactly if the stream is still as long as this call has left it; otherwise nothing
      is stored, and the error will report the length found then. */
  lemma InsertsExactly(s: System, w: nat)
    requires Reachable(s) && w in s.writers && s.writers[w].phase == Inserting
    ensures var wr := s.writers[w];
            var s', length := Step(s, Insert(w)), |OfStream(s.col, wr.streamId)|;
            && wr.inserted < |wr.batch| && w in s'.writers
            && if length == wr.expected + wr.inserted then
                 s'.col == s.col + [Doc(wr.batch[wr.inserted], w, wr.inserted)]
                 && s'.writers[w].phase == (if wr.inserted + 1 == |wr.batch| then Returned else Inserting)
               else
                 s'.col == s.col && s'.writers[w].phase == Recounting
                 && w in Step(s', Recount(w)).writers && Step(s', Recount(w)).writers[w].phase == Raised(length)
  {
    ReachableInv(s);
    var wr := s.writers[w];
    assert WriterInv(s.col, w, wr);
    TakenIsOccupied(s.col, wr.streamId, wr.batch[wr.inserted].version);
  }

  /** A call with no events returns at once; any other starts with the version check. */
  lemma StartsExactly(s: System, w: nat, streamId: string, batch: seq<StoredEvent>, expected: int)
    requires w !in s.writers
    ensures var s' := Step(s, Append(w, streamId, batch, expected));
            && s'.col == s.col
            && s'.writers == s.writers[w := Writer(streamId, batch, expected, 0, if batch == [] then Returned else Counting)]
  {
  }

  /** A document is never changed or removed. */
  lemma {:induction false} AppendOnly(es: seq<Event>, more: seq<Event>)
    ensures Run(es).col <= Run(es + more).col
  {
    if more == [] {
      assert es + more == es;
    } else {
      AppendOnly(es, more[..|more| - 1]);
      assert (es + more)[..|es + more| - 1] == es + more[..|more| - 1];
    }
  }

  // ---------------------------------------------------------------- batch atomicity

  /** All of the batch is stored, or none of it. */
  ghost predicate AllOrNothing(s: System, w: nat)
    requires w in s.writers
  {
    s.writers[w].inserted == 0 || s.writers[w].inserted == |s.writers[w].batch|
  }

  ghost predicate Finished(s: System, w: nat)
  {
    w in s.writers && (s.writers[w].phase == Returned || s.writers[w].phase.Raised?)
  }

  /** A call whose version check passes: it has counted and is about to insert. */
  lemma PassesCheck(s: System, w: nat, streamId: string, batch: seq<StoredEvent>, expected: nat) returns (s': System)
    requires Reachable(s) && w !in s.writers && batch != [] && Numbered(batch, streamId, expected)
    requires |OfStream(s.col, streamId)| == expected
    ensures Reachable(s') && s' == s.(writers := s.writers[w := Writer(streamId, batch, expected, 0, Inserting)])
  {
    var t := s.(writers := s.writers[w := Writer(streamId, batch, expected, 0, Counting)]);
    StepIsReachable(s, Append(w, streamId, batch, expected));
    assert Step(s, Append(w, streamId, batch, expected)) == t;
    StepIsReachable(t, Count(w));
    s' := Step(t, Count(w));
  }

  /** The next free version is inserted. */
  lemma InsertsNext(s: System, w: nat) returns (s': System)
    requires Reachable(s) && w in s.writers && s.writers[w].phase == Inserting
    requires |OfStream(s.col, s.writers[w].streamId)| == s.writers[w].expected + s.writers[w].inserted
    ensures Reachable(s') && |OfStream(s'.col, s.writers[w].streamId)| == |OfStream(s.col, s.writers[w].streamId)| + 1
    ensures var wr, n := s.writers[w], s.writers[w].inserted + 1;
            s'.writers == s.writers[w := wr.(inserted := n, phase := if n == |wr.batch| then Returned else Inserting)]
  {
    NextIsFree(s, w);
    var wr := s.writers[w];
    StepIsReachable(s, Insert(w));
    s' := Step(s, Insert(w));
    OfStreamSnoc(s.col, Doc(wr.batch[wr.inserted], w, wr.inserted), wr.streamId);
  }

  lemma NextIsFree(s: System, w: nat)
    requires Reachable(s) && w in s.writers && s.writers[w].phase == Inserting
    requires |OfStream(s.col, s.writers[w].streamId)| == s.writers[w].expected + s.writers[w].inserted
    ensures var wr := s.writers[w];
            && wr.inserted < |wr.batch| && wr.batch[wr.inserted].streamId == wr.streamId
            && !Taken(s.col, wr.streamId, wr.batch[wr.inserted].version)
  {
    ReachableInv(s);
    assert WriterInv(s.col, w, s.writers[w]);
    TakenIsOccupied(s.col, s.writers[w].streamId, s.writers[w].batch[s.writers[w].inserted].version);
  }

  /** A stream of n events, each appended by a call of its own. */
  lemma {:induction false} FilledStream(streamId: string, n: nat) returns (s: System)
    ensures Reachable(s) && |OfStream(s.col, streamId)| == n && forall w | w in s.writers :: w < n
  {
    if n == 0 {
      s := EMPTY;
      assert Run([]) == s && NumberedCalls([]);
    } else {
      s := FilledStream(streamId, n - 1);
      s := PassesCheck(s, n - 1, streamId, [StoredEvent(streamId, n, "", "")], n - 1);
      s := InsertsNext(s, n - 1);
    }
  }

  /** The call `expected` has stored the first event of a longer batch when another takes the next version. */
  lemma OtherTakesNext(streamId: string, batch: seq<StoredEvent>, expected: nat) returns (s: System)
    requires |batch| >= 2 && Numbered(batch, streamId, expected)
    ensures Reachable(s) && |OfStream(s.col, streamId)| == expected + 2
    ensures expected in s.writers && s.writers[expected] == Writer(streamId, batch, expected, 1, Inserting)
  {
    s := FilledStream(streamId, expected);
    s := PassesCheck(s, expected, streamId, batch, expected);
    s := InsertsNext(s, expected);
    var half := s.writers[expected];
    s := PassesCheck(s, expected + 1, streamId, [StoredEvent(streamId, expected + 2, "", "")], expected + 1);
    s := InsertsNext(s, expected + 1);
    assert s.writers[expected] == half;
  }

  /** Every batch of two or more events for a version that a stream can have may be overtaken in the middle. */
  lemma OvertakenMidBatch(streamId: string, batch: seq<StoredEvent>, expected: nat) returns (s: System)
    requires |batch| >= 2 && Numbered(batch, streamId, expected)
    ensures Reachable(s) && Finished(s, expected) && s.writers[expected].batch == batch && !AllOrNothing(s, expected)
  {
    var t := OtherTakesNext(streamId, batch, expected);
    ReachableInv(t);
    TakenIsOccupied(t.col, streamId, expected + 2);
    StepIsReachable(t, Insert(expected));
    var u := t.(writers := t.writers[expected := Writer(streamId, batch, expected, 1, Recounting)]);
    assert Step(t, Insert(expected)) == u;
    StepIsReachable(u, Recount(expected));
    s := Step(u, Recount(expected));
  }

  /** Appending is all-or-nothing in every interleaving exactly for batches of at most one event and
      for a negative expected version, which no stream has. */
  lemma AtomicExactlyForSingleEvents(streamId: string, batch: seq<StoredEvent>, expected: int)
    requires Numbered(batch, streamId, expected)
    ensures |batch| <= 1 || expected < 0 <==>
            forall s: System, w: nat | Reachable(s) && Finished(s, w) && s.writers[w].batch == batch :: AllOrNothing(s, w)
  {
    if |batch| <= 1 || expected < 0 {
      forall s: System, w: nat | Reachable(s) && Finished(s, w) && s.writers[w].batch == batch
        ensures AllOrNothing(s, w)
      {
        ReachableInv(s);
        assert WriterInv(s.col, w, s.writers[w]);
        if batch != [] {
          assert batch[0].version == s.writers[w].expected + 1 + 0 == expected + 1 + 0;
        }
      }
    } else {
      var s := OvertakenMidBatch(streamId, batch, expected);
    }
  }

  // ---------------------------------------------------------------- load

  /** What `find({version: {$gt: from}}, sort=[version])` returns. */
  ghost predicate IsFind(col: seq<Doc>, streamId: string, from: int, r: seq<Doc>)
  {
    && (forall i, j | 0 <= i < j < |r| :: r[i].event.version < r[j].event.version)
    && (forall d :: d in r <==> d in col && d.event.streamId == streamId && d.event.version > from)
  }

  /** How many events of a stream of n lie at versions up to `from`. */
  function Skipped(n: nat, from: int): nat
  {
    if from < 0 then 0 else if from < n then from else n
  }

  lemma TailMembers(docs: seq<Doc>, from: int, d: Doc)
    requires forall i | 0 <= i < |docs| :: docs[i].event.version == i + 1
    ensures d in docs[Skipped(|docs|, from)..] <==> d in docs && d.event.version > from
  {
    var k := Skipped(|docs|, from);
    if d in docs && d.event.version > from {
      var i :| 0 <= i < |docs| && docs[i] == d;
      assert docs[k..][i - k] == d;
    }
  }

  /** Loading from any version v at any moment of any run returns the events behind v, whole and in order. */
  lemma LoadReturnsTail(s: System, streamId: string, from: int, r: seq<Doc>)
    requires Reachable(s) && IsFind(s.col, streamId, from, r)
    ensures var docs := OfStream(s.col, streamId);
            r == docs[Skipped(|docs|, from)..]
  {
    ReachableInv(s);
    FindIsTail(s.col, streamId, from, r);
  }

  lemma FindIsTail(col: seq<Doc>, streamId: string, from: int, r: seq<Doc>)
    requires GapFree(col) && IsFind(col, streamId, from, r)
    ensures r == OfStream(col, streamId)[Skipped(|OfStream(col, streamId)|, from)..]
  {
    var docs := OfStream(col, streamId);
    var tail := docs[Skipped(|docs|, from)..];
    forall d ensures d in r <==> d in tail {
      OfStreamMembers(col, streamId, d);
      TailMembers(docs, from, d);
    }
    SortedSeqsAgree(r, tail, (d: Doc) => d.event.version);
  }

  // ---------------------------------------------------------------- one call on its own

  /** What an ordered insert of batch[i..] leaves, and how many of the batch were stored. */
  function InsertMany(col: seq<Doc>, batch: seq<StoredEvent>, w: nat, i: nat): (seq<Doc>, nat)
    requires i <= |batch|
    decreases |batch| - i
  {
    if i == |batch| || Taken(col, batch[i].streamId, batch[i].version) then (col, i)
    else InsertMany(col + [Doc(batch[i], w, i)], batch, w, i + 1)
  }

  /** Undisturbed, a call whose version check passed stores its whole batch behind the stream. */
  lemma {:induction false} UndisturbedInsertSucceeds(col: seq<Doc>, streamId: string, batch: seq<StoredEvent>,
                                                      expected: int, w: nat, i: nat)
    requires GapFree(col) && Numbered(batch, streamId, expected) && i <= |batch|
    requires |OfStream(col, streamId)| == expected + i
    ensures var (after, stored) := InsertMany(col, batch, w, i);
            && stored == |batch|
            && GapFree(after)
            && |after| == |col| + |batch| - i && after[..|col|] == col
            && forall p | |col| <= p < |after| :: after[p] == Doc(batch[p - |col| + i], w, p - |col| + i)
    decreases |batch| - i
  {
    if i < |batch| {
      TakenIsOccupied(col, streamId, batch[i].version);
      var d := Doc(batch[i], w, i);
      GapFreeSnoc(col, d);
      OfStreamSnoc(col, d, streamId);
      UndisturbedInsertSucceeds(col + [d], streamId, batch, expected, w, i + 1);
    }
  }

  /** The protocol's insert steps of one writer, with nobody else running, until it leaves the loop. */
  function FinishInserts(s: System, w: nat): System
    requires w in s.writers
    decreases if s.writers[w].inserted <= |s.writers[w].batch| then |s.writers[w].batch| - s.writers[w].inserted else 0,
              s.writers[w].phase == Inserting
  {
    if s.writers[w].phase != Inserting || s.writers[w].inserted >= |s.writers[w].batch| then s
    else FinishInserts(InsertNext(s, w), w)
  }

  /** Run alone, the protocol's steps compute what the ordered insert computes. */
  lemma {:induction false} SoloRunIsInsertMany(s: System, w: nat)
    requires w in s.writers && s.writers[w].phase == Inserting && s.writers[w].inserted < |s.writers[w].batch|
    ensures var end, (after, stored) := FinishInserts(s, w), InsertMany(s.col, s.writers[w].batch, w, s.writers[w].inserted);
            && w in end.writers && end.col == after && end.writers[w].inserted == stored
            && end.writers[w].phase == if stored == |s.writers[w].batch| then Returned else Recounting
    decreases |s.writers[w].batch| - s.writers[w].inserted
  {
    var s' := InsertNext(s, w);
    if s'.writers[w].phase == Inserting {
      SoloRunIsInsertMany(s', w);
    }
  }

  class MongoEventStore {
    var col: seq<Doc>

    constructor ()
      ensures col == []
    {
      col := [];
    }

    /** One insert under the unique index; false is the duplicate-key error. */
    method InsertOne(d: Doc) returns (inserted: bool)
      modifies this
      ensures inserted == !Taken(old(col), d.event.streamId, d.event.version)
      ensures col == if inserted then old(col) + [d] else old(col)
    {
      inserted := !Taken(col, d.event.streamId, d.event.version);
      if inserted {
        col := col + [d];
      }
    }

    /** `append` with no other writer in between; the error carries the count found. */
    method Append(streamId: string, batch: seq<StoredEvent>, expected: int, w: nat) returns (r: Result<(), nat>)
      modifies this
      ensures batch == [] ==> r == Ok(()) && col == old(col)
      ensures batch != [] && |OfStream(old(col), streamId)| != expected ==>
                r == Err(|OfStream(old(col), streamId)|) && col == old(col)
      ensures batch != [] && |OfStream(old(col), streamId)| == expected ==>
                var (after, stored) := InsertMany(old(col), batch, w, 0);
                col == after && r == if stored == |batch| then Ok(()) else Err(|OfStream(after, streamId)|)
      ensures GapFree(old(col)) && Numbered(batch, streamId, expected) && batch != [] ==>
                (r.Ok? <==> |OfStream(old(col), streamId)| == expected) && GapFree(col)
    {
      if batch == [] {
        return Ok(());
      }
      var current := |OfStream(col, streamId)|;
      if current != expected {
        return Err(current);
      }
      if GapFree(col) && Numbered(batch, streamId, expected) {
        UndisturbedInsertSucceeds(col, streamId, batch, expected, w, 0);
      }
      var i := 0;
      while i < |batch|
        invariant 0 <= i <= |batch|
        invariant InsertMany(col, batch, w, i) == InsertMany(old(col), batch, w, 0)
      {
        var inserted := InsertOne(Doc(batch[i], w, i));
        if !inserted {
          return Err(|OfStream(col, streamId)|);
        }
        i := i + 1;
      }
      return Ok(());
    }
  }
}

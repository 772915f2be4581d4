/**
 * `DeduplicationMiddleware` over `DynamoDBIdempotencyStore`: look up, conditional put, run the
 * handler, mark completed.  Every store command is one atomic step; any number of submissions
 * of the same command interleave.  Keys do not expire.
 */
module Deduplication {
  import opened Common

  type Key = string

  datatype Status = PROCESSING | COMPLETED

  datatype Item = Item(status: Status, response: Option<string>)

  /** The stored form of a result: {"result": str(result)} (escapes are not modelled). */
  function Encode(result: string): string
  {
    "{\"result\": \"" + result + "\"}"
  }

  datatype Pc =
    | Looking
    | Putting
    | Handling
    | Completing(result: string)
    | Returned(result: string)
    | ReturnedStored(response: Option<string>)
    | Conflict
    | HandlerRaised

  datatype Submission = Submission(key: Key, pc: Pc)

  /** `starts` records, per key, the submissions that started the handler. */
  datatype System = System(items: map<Key, Item>, subs: map<nat, Submission>, starts: map<Key, seq<nat>>)

  datatype Event =
    | Submit(c: nat, key: Key)
    | Get(c: nat)
    | Put(c: nat)
    | HandlerReturns(c: nat, result: string)
    | HandlerRaises(c: nat)
    | Complete(c: nat)

  function Starts(s: System, k: Key): seq<nat>
  {
    if k in s.starts then s.starts[k] else []
  }

  predicate At(s: System, c: nat, pc: Pc)
  {
    c in s.subs && s.subs[c].pc == pc
  }

  function Go(s: System, c: nat, pc: Pc): System
    requires c in s.subs
  {
    s.(subs := s.subs[c := s.subs[c].(pc := pc)])
  }

  function AfterGet(items: map<Key, Item>, k: Key): Pc
  {
    if k !in items then Putting
    else if items[k].status == COMPLETED then ReturnedStored(items[k].response)
    else Conflict
  }

  /** One atomic step; an event that is not enabled changes nothing. */
  function Step(s: System, e: Event): System
  {
    match e
    case Submit(c, k) => if c in s.subs then s else s.(subs := s.subs[c := Submission(k, Looking)])
    case Get(c) => if !At(s, c, Looking) then s else Go(s, c, AfterGet(s.items, s.subs[c].key))
    case Put(c) => if !At(s, c, Putting) then s else PutStep(s, c)
    case HandlerReturns(c, result) => if !At(s, c, Handling) then s else Go(s, c, Completing(result))
    case HandlerRaises(c) => if !At(s, c, Handling) then s else Go(s, c, HandlerRaised)
    case Complete(c) =>
      if c !in s.subs || !s.subs[c].pc.Completing? then s
      else
        var result := s.subs[c].pc.result;
        Go(s, c, Returned(result)).(items := s.items[s.subs[c].key := Item(COMPLETED, Some(Encode(result)))])
  }

  /** PutItem with attribute_not_exists. */
  function PutStep(s: System, c: nat): System
    requires c in s.subs
  {
    var k := s.subs[c].key;
    if k in s.items then Go(s, c, Conflict)
    else Go(s, c, Handling).(items := s.items[k := Item(PROCESSING, None)], starts := s.starts[k := Starts(s, k) + [c]])
  }

  const EMPTY := System(map[], map[], map[])

  function Run(es: seq<Event>): System
  {
    if es == [] then EMPTY else Step(Run(es[..|es| - 1]), es[|es| - 1])
  }

  ghost predicate Reachable(s: System)
  {
    exists es :: Run(es) == s
  }

  // ---------------------------------------------------------------- invariant

  /** The handler of this submission has been started. */
  predicate Started(pc: Pc)
  {
    pc == Handling || pc.Completing? || pc.Returned? || pc == HandlerRaised
  }

  /** What the item of a key says about the one submission that started its handler. */
  ghost predicate KeyInv(s: System, k: Key)
  {
    if k !in s.items then Starts(s, k) == []
    else
      && |Starts(s, k)| == 1 && Starts(s, k)[0] in s.subs
      && var starter := s.subs[Starts(s, k)[0]];
         && starter.key == k && Started(starter.pc)
         && (s.items[k].status == COMPLETED <==> starter.pc.Returned?)
         && (starter.pc.Returned? ==> s.items[k].response == Some(Encode(starter.pc.result)))
  }

  ghost predicate SubmissionInv(s: System, c: nat)
    requires c in s.subs
  {
    var k, pc := s.subs[c].key, s.subs[c].pc;
    && (Started(pc) ==> Starts(s, k) == [c])
    && (pc.ReturnedStored? ==> k in s.items && s.items[k] == Item(COMPLETED, pc.response))
  }

  ghost predicate Inv(s: System)
  {
    && (forall k :: KeyInv(s, k))
    && (forall c | c in s.subs :: SubmissionInv(s, c))
  }

  lemma StepKeepsKeys(s: System, e: Event, k: Key)
    requires Inv(s)
    ensures KeyInv(Step(s, e), k)
  {
    assert KeyInv(s, k);
    if !e.Submit? && e.c in s.subs {
      assert SubmissionInv(s, e.c);
    }
  }

  lemma StepKeepsSubmissions(s: System, e: Event, c: nat)
    requires Inv(s) && c in Step(s, e).subs
    ensures SubmissionInv(Step(s, e), c)
  {
    if c in s.subs {
      assert SubmissionInv(s, c) && KeyInv(s, s.subs[c].key);
    }
    if !e.Submit? && e.c in s.subs {
      assert SubmissionInv(s, e.c) && KeyInv(s, s.subs[e.c].key);
    }
  }

  lemma {:induction false} RunKeepsInv(es: seq<Event>)
    ensures Inv(Run(es))
  {
    if es != [] {
      var s, e := Run(es[..|es| - 1]), es[|es| - 1];
      RunKeepsInv(es[..|es| - 1]);
      forall k ensures KeyInv(Step(s, e), k) {
        StepKeepsKeys(s, e, k);
      }
      forall c | c in Step(s, e).subs ensures SubmissionInv(Step(s, e), c) {
        StepKeepsSubmissions(s, e, c);
      }
    }
  }

  lemma ReachableInv(s: System)
    requires Reachable(s)
    ensures Inv(s)
  {
    var es :| Run(es) == s;
    RunKeepsInv(es);
  }

  // ---------------------------------------------------------------- theorems

  /** In every interleaving the handler starts at most once per key. */
  lemma HandlerStartsAtMostOnce(s: System, k: Key)
    requires Reachable(s)
    ensures |Starts(s, k)| <= 1
  {
    ReachableInv(s);
    assert KeyInv(s, k);
  }

  predicate Over(pc: Pc)
  {
    pc.Returned? || pc.ReturnedStored? || pc == Conflict || pc == HandlerRaised
  }

  /** A submission that is over either ran the handler itself, got a conflict, or got the encoded
      result that the single run returned to its own submitter. */
  lemma DuplicatesGetTheOneResult(s: System, c: nat)
    requires Reachable(s) && c in s.subs && Over(s.subs[c].pc)
    ensures var k, pc := s.subs[c].key, s.subs[c].pc;
            || Starts(s, k) == [c]
            || pc == Conflict
            || (|Starts(s, k)| == 1 && Starts(s, k)[0] in s.subs
                && s.subs[Starts(s, k)[0]].pc.Returned?
                && pc == ReturnedStored(Some(Encode(s.subs[Starts(s, k)[0]].pc.result))))
  {
    ReachableInv(s);
    assert SubmissionInv(s, c) && KeyInv(s, s.subs[c].key);
  }

  /** Different results have different stored forms. */
  lemma EncodeIsInjective(a: string, b: string)
    requires Encode(a) == Encode(b)
    ensures a == b
  {
    var n := |Encode("")| - 2;
    assert Encode(a)[n..|Encode(a)| - 2] == a && Encode(b)[n..|Encode(b)| - 2] == b;
  }

  /** What a lookup finds: nothing exactly while no handler of the key has started, the encoded result
      exactly once that handler's submission has returned, and a conflict in between. */
  lemma LookupAnswersExactly(s: System, d: nat)
    requires Reachable(s) && At(s, d, Looking)
    ensures var pc, starts := Step(s, Get(d)).subs[d].pc, Starts(s, s.subs[d].key);
            if starts == [] then pc == Putting
            else
              && starts[0] in s.subs
              && pc == if s.subs[starts[0]].pc.Returned? then ReturnedStored(Some(Encode(s.subs[starts[0]].pc.result)))
                       else Conflict
  {
    ReachableInv(s);
    assert KeyInv(s, s.subs[d].key);
  }

  /** The put starts the handler exactly if no handler of the key has started; else it is a conflict. */
  lemma PutStartsExactly(s: System, d: nat)
    requires Reachable(s) && At(s, d, Putting)
    ensures var s', k := Step(s, Put(d)), s.subs[d].key;
            if Starts(s, k) == [] then At(s', d, Handling) && Starts(s', k) == [d]
            else At(s', d, Conflict) && Starts(s', k) == Starts(s, k)
  {
    ReachableInv(s);
    assert KeyInv(s, s.subs[d].key);
  }

  /** The submission whose handler returns gets that very result, once it is stored. */
  lemma RunnerGetsItsResult(s: System, c: nat, result: string)
    requires Reachable(s) && At(s, c, Handling)
    ensures var s' := Step(Step(s, HandlerReturns(c, result)), Complete(c));
            && At(s', c, Returned(result)) && s.subs[c].key in s'.items
            && s'.items[s.subs[c].key] == Item(COMPLETED, Some(Encode(result)))
  {
    assert Step(s, HandlerReturns(c, result)) == Go(s, c, Completing(result));
  }

  /** A handler that raises blocks its key: no submission of it ever returns a result. */
  lemma RaisedHandlerBlocksKey(s: System, c: nat, d: nat)
    requires Reachable(s) && At(s, c, HandlerRaised) && d in s.subs && s.subs[d].key == s.subs[c].key
    ensures !s.subs[d].pc.Returned? && !s.subs[d].pc.ReturnedStored?
  {
    ReachableInv(s);
    assert SubmissionInv(s, c) && SubmissionInv(s, d) && KeyInv(s, s.subs[c].key);
  }

  // ---------------------------------------------------------------- one submission on its own

  datatype Answer = Fresh(result: string) | Stored(response: Option<string>) | Refused | Raised

  /** What a submission gets and leaves behind; `handler` is None when the handler raises. */
  function Outcome(items: map<Key, Item>, k: Key, handler: Option<string>): (Answer, map<Key, Item>)
  {
    if k in items then
      (if items[k].status == COMPLETED then Stored(items[k].response) else Refused, items)
    else if handler.None? then (Raised, items[k := Item(PROCESSING, None)])
    else (Fresh(handler.value), items[k := Item(COMPLETED, Some(Encode(handler.value)))])
  }

  function AnswerOf(pc: Pc): Answer
    requires Over(pc)
  {
    match pc
    case Returned(result) => Fresh(result)
    case ReturnedStored(response) => Stored(response)
    case Conflict => Refused
    case HandlerRaised => Raised
  }

  function Solo(s: System, c: nat, k: Key, handler: Option<string>): System
  {
    var put := Step(Step(Step(s, Submit(c, k)), Get(c)), Put(c));
    Step(Step(put, if handler.Some? then HandlerReturns(c, handler.value) else HandlerRaises(c)), Complete(c))
  }

  lemma SoloFirst(s: System, c: nat, k: Key)
    requires c !in s.subs
    ensures var put := Step(Step(Step(s, Submit(c, k)), Get(c)), Put(c));
            && c in put.subs && put.subs[c].key == k
            && (k in s.items ==> put.items == s.items && put.subs[c].pc == AfterGet(s.items, k))
            && (k !in s.items ==> put.items == s.items[k := Item(PROCESSING, None)] && put.subs[c].pc == Handling)
  {
    var s1 := s.(subs := s.subs[c := Submission(k, Looking)]);
    assert Step(s, Submit(c, k)) == s1;
    var s2 := s.(subs := s.subs[c := Submission(k, AfterGet(s.items, k))]);
    assert Step(s1, Get(c)) == s2;
  }

  lemma SoloRest(t: System, c: nat, handler: Option<string>)
    requires c in t.subs
    ensures var e := if handler.Some? then HandlerReturns(c, handler.value) else HandlerRaises(c);
            var end := Step(Step(t, e), Complete(c));
            && c in end.subs
            && (t.subs[c].pc != Handling && !t.subs[c].pc.Completing? ==> end == t)
            && (t.subs[c].pc == Handling && handler.None? ==> end.items == t.items && end.subs[c].pc == HandlerRaised)
            && (t.subs[c].pc == Handling && handler.Some? ==>
                  && end.items == t.items[t.subs[c].key := Item(COMPLETED, Some(Encode(handler.value)))]
                  && end.subs[c].pc == Returned(handler.value))
  {
  }

  /** Undisturbed, the protocol's steps of one submission produce exactly that outcome. */
  lemma SoloSubmission(s: System, c: nat, k: Key, handler: Option<string>)
    requires c !in s.subs
    ensures var (answer, items), end := Outcome(s.items, k, handler), Solo(s, c, k, handler);
            && end.items == items
            && c in end.subs && Over(end.subs[c].pc) && AnswerOf(end.subs[c].pc) == answer
  {
    SoloFirst(s, c, k);
    SoloRest(Step(Step(Step(s, Submit(c, k)), Get(c)), Put(c)), c, handler);
  }

  class DynamoDBIdempotencyStore {
    var items: map<Key, Item>

    constructor ()
      ensures items == map[]
    {
      items := map[];
    }

    /** Conditional put; false is the ConflictError. */
    method Save(k: Key) returns (saved: bool)
      modifies this
      ensures saved <==> k !in old(items)
      ensures items == if saved then old(items)[k := Item(PROCESSING, None)] else old(items)
    {
      saved := k !in items;
      if saved {
        items := items[k := Item(PROCESSING, None)];
      }
    }

    method Complete(k: Key, response: string)
      modifies this
      ensures items == old(items)[k := Item(COMPLETED, Some(response))]
    {
      items := items[k := Item(COMPLETED, Some(response))];
    }
  }

  class DeduplicationMiddleware {
    const store: DynamoDBIdempotencyStore

    constructor (s: DynamoDBIdempotencyStore)
      ensures store == s
    {
      store := s;
    }

    /** Without a key the request is not a command, or one without an id, and passes straight through. */
    method Handle(key: Option<Key>, handler: Option<string>) returns (r: Answer)
      modifies store
      ensures key.None? ==>
                r == (if handler.Some? then Fresh(handler.value) else Raised) && store.items == old(store.items)
      ensures key.Some? ==> (r, store.items) == Outcome(old(store.items), key.value, handler)
    {
      if key.None? {
        return if handler.Some? then Fresh(handler.value) else Raised;
      }
      var k := key.value;
      if k in store.items {
        if store.items[k].status == COMPLETED {
          return Stored(store.items[k].response);
        }
        return Refused;
      }
      var saved := store.Save(k);
      if handler.None? {
        return Raised;
      }
      store.Complete(k, Encode(handler.value));
      assert store.items == old(store.items)[k := Item(COMPLETED, Some(Encode(handler.value)))];
      return Fresh(handler.value);
    }
  }
}

/** Datatypes and sequence facts that several components share. */
module Common {

  datatype Option<+T> = None | Some(value: T)

  datatype Result<+T, +E> = Ok(value: T) | Err(error: E)

  /** An event as persisted in a stream; metadata and wall-clock time are carried along unread. */
  datatype StoredEvent = StoredEvent(streamId: string, version: int, eventType: string, payload: string)

  /** The batch a repository hands to `append`: one stream, versions expected+1, expected+2, ... */
  ghost predicate Numbered(batch: seq<StoredEvent>, streamId: string, expected: int)
  {
    forall i | 0 <= i < |batch| :: batch[i].streamId == streamId && batch[i].version == expected + 1 + i
  }

  /** Two sequences sorted strictly by an integer rank and holding the same elements are equal. */
  lemma {:induction false} SortedSeqsAgree<T>(a: seq<T>, b: seq<T>, rank: T -> int)
    requires forall i, j | 0 <= i < j < |a| :: rank(a[i]) < rank(a[j])
    requires forall i, j | 0 <= i < j < |b| :: rank(b[i]) < rank(b[j])
    requires forall x :: x in a <==> x in b
    ensures a == b
  {
    if a != [] {
      NonemptyTogether(a, b);
    }
    if b != [] {
      NonemptyTogether(b, a);
      SameLast(a, b, rank);
      var n, m := |a| - 1, |b| - 1;
      forall x ensures x in a[..n] <==> x in b[..m] {
        assert a == a[..n] + [a[n]] && b == b[..m] + [b[m]];
        if x in a[..n] {
          assert rank(x) < rank(a[n]) && x in b;
        }
        if x in b[..m] {
          assert rank(x) < rank(b[m]) && x in a;
        }
      }
      SortedSeqsAgree(a[..n], b[..m], rank);
      assert a == a[..n] + [a[n]] && b == b[..m] + [b[m]];
    }
  }

  lemma NonemptyTogether<T>(a: seq<T>, b: seq<T>)
    requires a != []
    requires forall x :: x in a <==> x in b
    ensures b != []
  {
    assert a[0] in b;
  }

  lemma SameLast<T>(a: seq<T>, b: seq<T>, rank: T -> int)
    requires a != [] && b != []
    requires forall i, j | 0 <= i < j < |a| :: rank(a[i]) < rank(a[j])
    requires forall i, j | 0 <= i < j < |b| :: rank(b[i]) < rank(b[j])
    requires forall x :: x in a <==> x in b
    ensures a[|a| - 1] == b[|b| - 1]
  {
    assert a[|a| - 1] in b && b[|b| - 1] in a;
  }
}

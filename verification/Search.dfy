/**
 * `InMemorySearchEngine.search`: filter, one stable sort per sort field from the last to the
 * first, and a page slice.  Result lists hold positions into the engine's items, which stand
 * for references to them, so that items may be equal and still be told apart.
 */
module Search {
  import opened Common
  import opened Pagination

  datatype Val = VNone | VNum(n: int) | VStr(s: string)

  type Item = map<string, Val>

  datatype SortField = SortField(field: string, descending: bool)

  /** The sort key `d.get(field) or ""`: a missing field, None, 0 and "" all become "". */
  datatype Key = KNum(n: int) | KStr(s: string)

  function KeyOf(item: Item, field: string): Key
  {
    if field !in item then KStr("")
    else
      match item[field]
      case VNone => KStr("")
      case VNum(n) => if n == 0 then KStr("") else KNum(n)
      case VStr(s) => KStr(s)
  }

  // ---------------------------------------------------------------- the order of keys

  predicate StrLess(a: string, b: string)
  {
    b != "" && (a == "" || a[0] < b[0] || (a[0] == b[0] && StrLess(a[1..], b[1..])))
  }

  /** Numbers before strings here; Python refuses to compare the two. */
  predicate KeyLess(a: Key, b: Key)
  {
    match (a, b)
    case (KNum(m), KNum(n)) => m < n
    case (KStr(s), KStr(t)) => StrLess(s, t)
    case (KNum(_), KStr(_)) => true
    case (KStr(_), KNum(_)) => false
  }

  lemma {:induction false} StrLessAsymmetric(a: string, b: string)
    ensures !(StrLess(a, b) && StrLess(b, a))
  {
    if a != "" && b != "" {
      StrLessAsymmetric(a[1..], b[1..]);
    }
  }

  /** What is not above b, which is not above c, is not above c. */
  lemma {:induction false} StrLessNegTransitive(a: string, b: string, c: string)
    requires StrLess(a, c)
    ensures StrLess(a, b) || StrLess(b, c)
  {
    if a != "" && b != "" && a[0] == b[0] && b[0] == c[0] {
      StrLessNegTransitive(a[1..], b[1..], c[1..]);
    }
  }

  /** Item i goes strictly before item j in this field and direction. */
  predicate Before(items: seq<Item>, sf: SortField, i: nat, j: nat)
    requires i < |items| && j < |items|
  {
    var a, b := KeyOf(items[i], sf.field), KeyOf(items[j], sf.field);
    if sf.descending then KeyLess(b, a) else KeyLess(a, b)
  }

  lemma BeforeAsymmetric(items: seq<Item>, sf: SortField, i: nat, j: nat)
    requires i < |items| && j < |items| && Before(items, sf, i, j)
    ensures !Before(items, sf, j, i)
  {
    var a, b := KeyOf(items[i], sf.field), KeyOf(items[j], sf.field);
    if a.KStr? && b.KStr? {
      StrLessAsymmetric(a.s, b.s);
    }
  }

  lemma BeforeNegTransitive(items: seq<Item>, sf: SortField, i: nat, j: nat, k: nat)
    requires i < |items| && j < |items| && k < |items| && Before(items, sf, i, k)
    ensures Before(items, sf, i, j) || Before(items, sf, j, k)
  {
    var a, b, c := KeyOf(items[i], sf.field), KeyOf(items[j], sf.field), KeyOf(items[k], sf.field);
    if a.KStr? && b.KStr? && c.KStr? {
      if sf.descending { StrLessNegTransitive(c.s, b.s, a.s); } else { StrLessNegTransitive(a.s, b.s, c.s); }
    }
  }

  // ---------------------------------------------------------------- the specification

  /** Lexicographic by the sort list with each field's direction, then by position in the input. */
  predicate Lex(items: seq<Item>, sorts: seq<SortField>, i: nat, j: nat)
    requires i < |items| && j < |items|
  {
    if sorts == [] then i < j
    else Before(items, sorts[0], i, j) || (!Before(items, sorts[0], j, i) && Lex(items, sorts[1..], i, j))
  }

  ghost predicate Positions(items: seq<Item>, s: seq<nat>)
  {
    forall i | 0 <= i < |s| :: s[i] < |items|
  }

  ghost predicate OrderedBy(items: seq<Item>, sorts: seq<SortField>, s: seq<nat>)
    requires Positions(items, s)
  {
    forall i, j | 0 <= i < j < |s| :: Lex(items, sorts, s[i], s[j])
  }

  lemma {:induction false} LexAsymmetric(items: seq<Item>, sorts: seq<SortField>, i: nat, j: nat)
    requires i < |items| && j < |items| && Lex(items, sorts, i, j)
    ensures !Lex(items, sorts, j, i)
  {
    if sorts != [] {
      if Before(items, sorts[0], i, j) {
        BeforeAsymmetric(items, sorts[0], i, j);
      } else {
        LexAsymmetric(items, sorts[1..], i, j);
      }
    }
  }

  /** The order leaves no choice: it determines the list from the set of its positions. */
  lemma {:induction false} OrderIsUnique(items: seq<Item>, sorts: seq<SortField>, a: seq<nat>, b: seq<nat>)
    requires Positions(items, a) && Positions(items, b)
    requires OrderedBy(items, sorts, a) && OrderedBy(items, sorts, b)
    requires forall x: nat :: x in a <==> x in b
    ensures a == b
  {
    if a != [] {
      NonemptyTogether(a, b);
    }
    if b != [] {
      NonemptyTogether(b, a);
      HeadsAgree(items, sorts, a, b);
      assert a == [a[0]] + a[1..] && b == [b[0]] + b[1..];
      HeadNotInTail(items, sorts, a);
      HeadNotInTail(items, sorts, b);
      forall x: nat ensures x in a[1..] <==> x in b[1..] {
        assert x in a <==> x == a[0] || x in a[1..];
        assert x in b <==> x == b[0] || x in b[1..];
      }
      OrderIsUnique(items, sorts, a[1..], b[1..]);
    }
  }

  lemma HeadNotInTail(items: seq<Item>, sorts: seq<SortField>, a: seq<nat>)
    requires a != [] && Positions(items, a) && OrderedBy(items, sorts, a)
    ensures a[0] !in a[1..]
  {
    if Lex(items, sorts, a[0], a[0]) {
      LexAsymmetric(items, sorts, a[0], a[0]);
    }
    assert forall k | 0 <= k < |a[1..]| :: a[1..][k] == a[k + 1];
  }

  lemma HeadsAgree(items: seq<Item>, sorts: seq<SortField>, a: seq<nat>, b: seq<nat>)
    requires a != [] && b != [] && Positions(items, a) && Positions(items, b)
    requires OrderedBy(items, sorts, a) && OrderedBy(items, sorts, b)
    requires forall x: nat :: x in a <==> x in b
    ensures a[0] == b[0]
  {
    assert a[0] in b && b[0] in a;
    var i :| 0 <= i < |a| && a[i] == b[0];
    var j :| 0 <= j < |b| && b[j] == a[0];
    if i > 0 && j > 0 {
      LexAsymmetric(items, sorts, a[0], b[0]);
    }
  }

  // ---------------------------------------------------------------- repeated stable sorts

  function Insert(items: seq<Item>, sf: SortField, x: nat, t: seq<nat>): (r: seq<nat>)
    requires x < |items| && forall i | 0 <= i < |t| :: t[i] < |items|
    ensures multiset(r) == multiset(t) + multiset{x}
    ensures forall i | 0 <= i < |r| :: r[i] < |items|
  {
    if t == [] || !Before(items, sf, t[0], x) then [x] + t
    else
      assert t == [t[0]] + t[1..];
      [t[0]] + Insert(items, sf, x, t[1..])
  }

  /** Python's list.sort by one field: equal keys keep their order, with reverse=True too. */
  function StableSort(items: seq<Item>, sf: SortField, s: seq<nat>): (r: seq<nat>)
    requires forall i | 0 <= i < |s| :: s[i] < |items|
    ensures multiset(r) == multiset(s)
    ensures forall i | 0 <= i < |r| :: r[i] < |items|
  {
    if s == [] then []
    else
      assert s == [s[0]] + s[1..];
      Insert(items, sf, s[0], StableSort(items, sf, s[1..]))
  }

  /** `for sf in reversed(sort): results.sort(...)`. */
  function SortAll(items: seq<Item>, sorts: seq<SortField>, s: seq<nat>): (r: seq<nat>)
    requires forall i | 0 <= i < |s| :: s[i] < |items|
    ensures multiset(r) == multiset(s)
    ensures forall i | 0 <= i < |r| :: r[i] < |items|
  {
    if sorts == [] then s else StableSort(items, sorts[0], SortAll(items, sorts[1..], s))
  }

  /** x is not behind the head of an ordered list, and precedes all of it in the minor order: then in the major one. */
  lemma PrecedesAll(items: seq<Item>, sorts: seq<SortField>, x: nat, t: seq<nat>, k: nat)
    requires sorts != [] && x < |items| && Positions(items, t) && OrderedBy(items, sorts, t) && k < |t|
    requires !Before(items, sorts[0], t[0], x) && Lex(items, sorts[1..], x, t[k])
    ensures Lex(items, sorts, x, t[k])
  {
    if Before(items, sorts[0], t[k], x) && k > 0 {
      BeforeNegTransitive(items, sorts[0], t[k], t[0], x);
      assert Lex(items, sorts, t[0], t[k]);
      if Before(items, sorts[0], t[0], t[k]) {
        BeforeAsymmetric(items, sorts[0], t[0], t[k]);
      }
    }
  }

  lemma {:induction false} InsertOrdered(items: seq<Item>, sorts: seq<SortField>, x: nat, t: seq<nat>)
    requires sorts != [] && x < |items| && Positions(items, t) && OrderedBy(items, sorts, t)
    requires forall k | 0 <= k < |t| :: Lex(items, sorts[1..], x, t[k])
    ensures OrderedBy(items, sorts, Insert(items, sorts[0], x, t))
  {
    if t == [] || !Before(items, sorts[0], t[0], x) {
      forall k | 0 <= k < |t| ensures Lex(items, sorts, x, t[k]) {
        PrecedesAll(items, sorts, x, t, k);
      }
    } else {
      InsertOrdered(items, sorts, x, t[1..]);
      var r := Insert(items, sorts[0], x, t[1..]);
      forall k | 0 <= k < |r| ensures Lex(items, sorts, t[0], r[k]) {
        assert r[k] in multiset(r);
        if r[k] != x {
          assert r[k] in t[1..];
        }
      }
    }
  }

  /** A stable sort of a list that is ordered by the later fields is ordered by all of them. */
  lemma {:induction false} StableSortOrdered(items: seq<Item>, sorts: seq<SortField>, s: seq<nat>)
    requires sorts != [] && Positions(items, s) && OrderedBy(items, sorts[1..], s)
    ensures OrderedBy(items, sorts, StableSort(items, sorts[0], s))
  {
    if s != [] {
      StableSortOrdered(items, sorts, s[1..]);
      var t := StableSort(items, sorts[0], s[1..]);
      forall k | 0 <= k < |t| ensures Lex(items, sorts[1..], s[0], t[k]) {
        assert t[k] in multiset(t);
        assert t[k] in s[1..];
      }
      InsertOrdered(items, sorts, s[0], t);
    }
  }

  /** Sorting by the last field first, stably, is one lexicographic sort with ties in input order. */
  lemma {:induction false} RepeatedSortsAreLexicographic(items: seq<Item>, sorts: seq<SortField>, s: seq<nat>)
    requires Positions(items, s) && forall i, j | 0 <= i < j < |s| :: s[i] < s[j]
    ensures OrderedBy(items, sorts, SortAll(items, sorts, s))
    ensures multiset(SortAll(items, sorts, s)) == multiset(s)
  {
    if sorts != [] {
      RepeatedSortsAreLexicographic(items, sorts[1..], s);
      StableSortOrdered(items, sorts, SortAll(items, sorts[1..], s));
    }
  }

  // ---------------------------------------------------------------- filters

  /** What a filter compares with: a value, or a list of values. */
  datatype Operand = One(v: Val) | Many(vs: seq<Val>)

  datatype Filter = Filter(field: string, op: string, operand: Operand)

  function Get(item: Item, field: string): Val
  {
    if field in item then item[field] else VNone
  }

  /** Python's a < b; None is the TypeError for values of different types, and for None. */
  function Less(a: Val, b: Val): Option<bool>
  {
    match (a, b)
    case (VNum(m), VNum(n)) => Some(m < n)
    case (VStr(s), VStr(t)) => Some(StrLess(s, t))
    case _ => None
  }

  function Not(r: Option<bool>): Option<bool>
  {
    if r.None? then None else Some(!r.value)
  }

  predicate Contains(s: string, t: string)
  {
    t <= s || (s != "" && Contains(s[1..], t))
  }

  function Decimal(n: nat): string
  {
    (if n < 10 then "" else Decimal(n / 10)) + ["0123456789"[n % 10]]
  }

  /** `str(val or "")`. */
  function Text(v: Val): string
  {
    match v
    case VNone => ""
    case VNum(n) => if n == 0 then "" else if n < 0 then "-" + Decimal(-n) else Decimal(n)
    case VStr(s) => s
  }

  /** The verdict of one filter; None is a TypeError. */
  function Matches(item: Item, f: Filter): Option<bool>
  {
    var val := Get(item, f.field);
    if f.op == "eq" then Some(f.operand == One(val))
    else if f.op == "neq" then Some(f.operand != One(val))
    else if f.op in {"gt", "gte", "lt", "lte"} then
      if val == VNone then Some(false)
      else if f.operand.Many? then None
      else if f.op == "gt" then Less(f.operand.v, val)
      else if f.op == "gte" then Not(Less(val, f.operand.v))
      else if f.op == "lt" then Less(val, f.operand.v)
      else Not(Less(f.operand.v, val))
    else if f.op == "in" then
      if f.operand.Many? then Some(val in f.operand.vs)
      else if f.operand.v.VStr? && val.VStr? then Some(Contains(f.operand.v.s, val.s))
      else None
    else if f.op == "contains" then
      if f.operand.One? && f.operand.v.VStr? then Some(Contains(Text(val), f.operand.v.s)) else None
    else Some(true)
  }

  lemma {:induction false} StrTrichotomy(a: string, b: string)
    requires !StrLess(a, b) && !StrLess(b, a)
    ensures a == b
  {
    if a != "" && b != "" {
      StrTrichotomy(a[1..], b[1..]);
      assert a == [a[0]] + a[1..] && b == [b[0]] + b[1..];
    }
  }

  lemma {:induction false} StrLessIrreflexive(a: string)
    ensures !StrLess(a, a)
  {
    if a != "" {
      StrLessIrreflexive(a[1..]);
    }
  }

  /** On a present value the order filters raise exactly for another type, and otherwise are the
      comparisons of one total order that `eq` belongs to. */
  lemma OrderFiltersAgree(item: Item, field: string, v: Val)
    requires Get(item, field) != VNone
    ensures var val, on := Get(item, field), (op: string) => Matches(item, Filter(field, op, One(v)));
            if val.VNum? == v.VNum? && val.VStr? == v.VStr? then
              && on("lt").Some? && on("gt").Some? && !(on("lt").value && on("gt").value)
              && on("eq") == Some(!on("lt").value && !on("gt").value) == Not(on("neq"))
              && on("lte") == Not(on("gt")) && on("gte") == Not(on("lt"))
            else on("lt") == on("gt") == on("lte") == on("gte") == None && on("eq") == Some(false)
  {
    var val := Get(item, field);
    if val.VStr? && v.VStr? {
      StrLessAsymmetric(val.s, v.s);
      StrLessIrreflexive(v.s);
      if !StrLess(val.s, v.s) && !StrLess(v.s, val.s) {
        StrTrichotomy(val.s, v.s);
      }
    }
  }

  /** `all(...)` over the filters: the first that is not true decides. */
  function AllMatch(item: Item, filters: seq<Filter>): Option<bool>
  {
    if filters == [] then Some(true)
    else
      var first := Matches(item, filters[0]);
      if first == Some(true) then AllMatch(item, filters[1..]) else first
  }

  ghost predicate TrueUpTo(item: Item, filters: seq<Filter>, n: nat)
    requires n <= |filters|
  {
    forall i | 0 <= i < n :: Matches(item, filters[i]) == Some(true)
  }

  /** An item passes exactly if every filter is true of it; it raises exactly if some filter does and
      all before that one are true. */
  lemma {:induction false} FiltersAreAConjunction(item: Item, filters: seq<Filter>)
    ensures AllMatch(item, filters) == Some(true) <==> TrueUpTo(item, filters, |filters|)
    ensures AllMatch(item, filters).None? <==>
            exists i: nat | i < |filters| :: Matches(item, filters[i]).None? && TrueUpTo(item, filters, i)
  {
    if filters != [] {
      var rest := filters[1..];
      FiltersAreAConjunction(item, rest);
      if Matches(item, filters[0]) == Some(true) {
        forall n: nat | n <= |rest| ensures TrueUpTo(item, rest, n) <==> TrueUpTo(item, filters, n + 1) {
          TrueUpToTail(item, filters, n);
        }
        if AllMatch(item, rest).None? {
          var i: nat :| i < |rest| && Matches(item, rest[i]).None? && TrueUpTo(item, rest, i);
          assert Matches(item, filters[i + 1]).None?;
        }
        if i: nat :| i < |filters| && Matches(item, filters[i]).None? && TrueUpTo(item, filters, i) {
          assert rest[i - 1] == filters[i] && TrueUpTo(item, rest, i - 1);
        }
      } else {
        assert TrueUpTo(item, filters, 0);
      }
    }
  }

  lemma TrueUpToTail(item: Item, filters: seq<Filter>, n: nat)
    requires n < |filters| && Matches(item, filters[0]) == Some(true)
    ensures TrueUpTo(item, filters[1..], n) <==> TrueUpTo(item, filters, n + 1)
  {
    assert forall i | 0 <= i < n :: filters[1..][i] == filters[i + 1];
    if TrueUpTo(item, filters[1..], n) {
      forall i | 0 <= i < n + 1 ensures Matches(item, filters[i]) == Some(true) {
        if i > 0 {
          assert filters[i] == filters[1..][i - 1];
        }
      }
    }
  }

  /** The text search comes first; an item it drops is not filtered at all. */
  function Verdict(text: Item -> bool, filters: seq<Filter>, item: Item): Option<bool>
  {
    if !text(item) then Some(false) else AllMatch(item, filters)
  }

  function Keep(text: Item -> bool, filters: seq<Filter>): Item -> bool
  {
    item => Verdict(text, filters, item) == Some(true)
  }

  /** Dropped by the text search, or else judged by all filters: kept exactly if every one is true, and
      raising exactly if one raises while all before it are true. */
  lemma KeepsExactly(text: Item -> bool, filters: seq<Filter>, item: Item)
    ensures Keep(text, filters)(item) <==> text(item) && forall f | f in filters :: Matches(item, f) == Some(true)
    ensures Verdict(text, filters, item).None? <==>
            text(item) && exists i: nat | i < |filters| :: Matches(item, filters[i]).None? && TrueUpTo(item, filters, i)
  {
    FiltersAreAConjunction(item, filters);
    if TrueUpTo(item, filters, |filters|) {
      forall f | f in filters ensures Matches(item, f) == Some(true) {
        var i :| 0 <= i < |filters| && filters[i] == f;
      }
    }
  }

  // ---------------------------------------------------------------- what the orders mean

  /** A proper prefix of b, or smaller at the first place where the two differ. */
  ghost predicate Precedes(a: string, b: string)
  {
    exists i: nat | i <= |a| && i < |b| :: a[..i] == b[..i] && (i == |a| || a[i] < b[i])
  }

  lemma {:induction false} StrLessIsPrecedes(a: string, b: string)
    ensures StrLess(a, b) <==> Precedes(a, b)
  {
    if a == "" && b != "" {
      assert a[..0] == b[..0];
    } else if a != "" && b != "" {
      StrLessIsPrecedes(a[1..], b[1..]);
      if a[0] < b[0] {
        assert a[..0] == b[..0];
      } else if a[0] == b[0] {
        PrecedesTail(a, b);
      } else {
        PrecedesHead(a, b);
      }
    }
  }

  lemma PrecedesHead(a: string, b: string)
    requires a != "" && b != ""
    ensures Precedes(a, b) ==> a[0] <= b[0]
  {
    if i: nat :| i <= |a| && i < |b| && a[..i] == b[..i] && (i == |a| || a[i] < b[i]) {
      if i > 0 {
        assert a[..i][0] == b[..i][0];
      }
    }
  }

  lemma PrecedesTail(a: string, b: string)
    requires a != "" && b != "" && a[0] == b[0]
    ensures Precedes(a, b) <==> Precedes(a[1..], b[1..])
  {
    if i: nat :| i <= |a| && i < |b| && a[..i] == b[..i] && (i == |a| || a[i] < b[i]) {
      assert i > 0;
      assert a[1..][..i - 1] == a[..i][1..] == b[..i][1..] == b[1..][..i - 1];
    }
    if i: nat :| i <= |a[1..]| && i < |b[1..]| && a[1..][..i] == b[1..][..i] && (i == |a[1..]| || a[1..][i] < b[1..][i]) {
      assert a[..i + 1] == [a[0]] + a[1..][..i] == [b[0]] + b[1..][..i] == b[..i + 1];
    }
  }

  /** What the sort goes by: the value, or the empty string for a missing field, None, 0 and "". */
  function SortValue(item: Item, field: string): Val
  {
    if field !in item || item[field] in {VNone, VNum(0), VStr("")} then VStr("") else item[field]
  }

  ghost predicate Smaller(v: Val, w: Val)
  {
    if v.VNum? && w.VNum? then v.n < w.n else v.VStr? && w.VStr? && Precedes(v.s, w.s)
  }

  /** Among values of one kind, `Before` is the smaller value first, or the larger one when descending. */
  lemma BeforeIsSmaller(items: seq<Item>, sf: SortField, i: nat, j: nat)
    requires i < |items| && j < |items|
    requires SortValue(items[i], sf.field).VNum? == SortValue(items[j], sf.field).VNum?
    ensures var v, w := SortValue(items[i], sf.field), SortValue(items[j], sf.field);
            Before(items, sf, i, j) <==> if sf.descending then Smaller(w, v) else Smaller(v, w)
  {
    var v, w := SortValue(items[i], sf.field), SortValue(items[j], sf.field);
    if v.VStr? && w.VStr? {
      StrLessIsPrecedes(v.s, w.s);
      StrLessIsPrecedes(w.s, v.s);
    }
  }

  /** Equal values are in neither order. */
  lemma SameIsNotBefore(items: seq<Item>, sf: SortField, i: nat, j: nat)
    requires i < |items| && j < |items| && SortValue(items[i], sf.field) == SortValue(items[j], sf.field)
    ensures !Before(items, sf, i, j)
  {
    var v := SortValue(items[i], sf.field);
    if v.VStr? {
      StrLessIrreflexive(v.s);
    }
  }

  /** Different values of one kind are in one order or the other. */
  lemma DifferentAreOrdered(v: Val, w: Val)
    requires v != w && v != VNone && w != VNone && v.VNum? == w.VNum?
    ensures Smaller(v, w) || Smaller(w, v)
  {
    if v.VStr? {
      StrLessIsPrecedes(v.s, w.s);
      StrLessIsPrecedes(w.s, v.s);
      if !StrLess(v.s, w.s) && !StrLess(w.s, v.s) {
        StrTrichotomy(v.s, w.s);
      }
    }
  }

  /** Two items with equal values in the first m sort fields are in the order of the remaining fields. */
  lemma {:induction false} EqualFieldsDoNotDecide(items: seq<Item>, sorts: seq<SortField>, x: nat, y: nat, m: nat)
    requires x < |items| && y < |items| && m <= |sorts|
    requires forall l | 0 <= l < m :: SortValue(items[x], sorts[l].field) == SortValue(items[y], sorts[l].field)
    ensures Lex(items, sorts, x, y) <==> Lex(items, sorts[m..], x, y)
  {
    if m == 0 {
      assert sorts[m..] == sorts;
    } else {
      SameIsNotBefore(items, sorts[0], x, y);
      SameIsNotBefore(items, sorts[0], y, x);
      EqualFieldsDoNotDecide(items, sorts[1..], x, y, m - 1);
      assert sorts[1..][m - 1..] == sorts[m..];
    }
  }

  /**
   * What a sorted list looks like: of two items, the one listed first has the smaller value (the larger
   * one, if that field is descending) in the first sort field in which they differ; and items that
   * differ in no sort field stand in input order.
   */
  lemma FirstDifferenceDecides(items: seq<Item>, sorts: seq<SortField>, s: seq<nat>, i: nat, j: nat, m: nat)
    requires Positions(items, s) && OrderedBy(items, sorts, s) && i < j < |s| && m <= |sorts|
    requires forall l | 0 <= l < m :: SortValue(items[s[i]], sorts[l].field) == SortValue(items[s[j]], sorts[l].field)
    ensures m == |sorts| ==> s[i] < s[j]
    ensures m < |sorts| ==>
              var v, w := SortValue(items[s[i]], sorts[m].field), SortValue(items[s[j]], sorts[m].field);
              v != w && v.VNum? == w.VNum? ==> if sorts[m].descending then Smaller(w, v) else Smaller(v, w)
  {
    EqualFieldsDoNotDecide(items, sorts, s[i], s[j], m);
    if m < |sorts| {
      var v, w := SortValue(items[s[i]], sorts[m].field), SortValue(items[s[j]], sorts[m].field);
      if v != w && v.VNum? == w.VNum? {
        BeforeIsSmaller(items, sorts[m], s[i], s[j]);
        BeforeIsSmaller(items, sorts[m], s[j], s[i]);
        DifferentAreOrdered(v, w);
        assert Lex(items, sorts[m..], s[i], s[j]);
      }
    }
  }

  /** One sort field over non-zero numbers: non-decreasing, or non-increasing when descending. */
  lemma NumbersComeSorted(items: seq<Item>, keep: Item -> bool, sf: SortField, whole: seq<nat>, i: nat, j: nat)
    requires IsSorted(items, keep, [sf], whole) && i < j < |whole|
    requires forall x | x in whole :: x < |items| && sf.field in items[x] && items[x][sf.field].VNum? && items[x][sf.field].n != 0
    ensures var a, b := items[whole[i]][sf.field].n, items[whole[j]][sf.field].n;
            if sf.descending then a >= b else a <= b
  {
    FirstDifferenceDecides(items, [sf], whole, i, j, 0);
  }

  /** One sort field over strings: each one equal to the next or preceding it, or the other way round. */
  lemma StringsComeSorted(items: seq<Item>, keep: Item -> bool, sf: SortField, whole: seq<nat>, i: nat, j: nat)
    requires IsSorted(items, keep, [sf], whole) && i < j < |whole|
    requires forall x | x in whole :: x < |items| && sf.field in items[x] && items[x][sf.field].VStr?
    ensures var a, b := items[whole[i]][sf.field].s, items[whole[j]][sf.field].s;
            a == b || if sf.descending then Precedes(b, a) else Precedes(a, b)
  {
    FirstDifferenceDecides(items, [sf], whole, i, j, 0);
  }

  /** A sort raises exactly if some of the values it goes by are numbers and some are strings. */
  lemma MixedIsTwoKinds(items: seq<Item>, s: seq<nat>, field: string)
    requires Positions(items, s)
    ensures Mixed(items, s, field) <==>
            exists i, j | 0 <= i < |s| && 0 <= j < |s| ::
              SortValue(items[s[i]], field).VNum? && SortValue(items[s[j]], field).VStr?
  {
    assert forall i | 0 <= i < |s| :: KeyOf(items[s[i]], field).KNum? <==> SortValue(items[s[i]], field).VNum?;
  }

  /** The comparison filters on two numbers and on two strings, and on a missing value. */
  lemma ComparisonsMean(item: Item, field: string, v: Val)
    ensures var val, on := Get(item, field), (op: string) => Matches(item, Filter(field, op, One(v)));
            && (val == VNone ==> on("gt") == on("gte") == on("lt") == on("lte") == Some(false))
            && (val.VNum? && v.VNum? ==>
                  && on("gt") == Some(val.n > v.n) && on("gte") == Some(val.n >= v.n)
                  && on("lt") == Some(val.n < v.n) && on("lte") == Some(val.n <= v.n))
            && (val.VStr? && v.VStr? ==>
                  && on("gt") == Some(Precedes(v.s, val.s)) && on("lt") == Some(Precedes(val.s, v.s))
                  && on("gte") == Some(val.s == v.s || Precedes(v.s, val.s))
                  && on("lte") == Some(val.s == v.s || Precedes(val.s, v.s)))
            && on("eq") == Some(val == v) && on("neq") == Some(val != v)
  {
    var val := Get(item, field);
    if val.VStr? && v.VStr? {
      StrLessIsPrecedes(val.s, v.s);
      StrLessIsPrecedes(v.s, val.s);
      StrLessAsymmetric(val.s, v.s);
      StrLessIrreflexive(v.s);
      if !StrLess(val.s, v.s) && !StrLess(v.s, val.s) {
        StrTrichotomy(val.s, v.s);
      }
    }
  }

  ghost predicate OccursIn(s: string, t: string)
  {
    exists i: nat | i <= |s| :: t <= s[i..]
  }

  lemma {:induction false} ContainsIsOccurs(s: string, t: string)
    ensures Contains(s, t) <==> OccursIn(s, t)
  {
    assert s[0..] == s;
    if s != "" {
      ContainsIsOccurs(s[1..], t);
      if i: nat :| i <= |s[1..]| && t <= s[1..][i..] {
        assert s[i + 1..] == s[1..][i..];
      }
      if i: nat :| i <= |s| && t <= s[i..] {
        assert i > 0 ==> s[1..][i - 1..] == s[i..];
      }
    }
  }

  /** The decimal digits of a string read as a number. */
  function Number(s: string): nat
  {
    if s == "" then 0
    else 10 * Number(s[..|s| - 1]) + if '0' <= s[|s| - 1] <= '9' then (s[|s| - 1] - '0') as nat else 0
  }

  lemma {:induction false} DecimalIsNumber(n: nat)
    ensures Number(Decimal(n)) == n && |Decimal(n)| >= 1
    ensures n > 0 ==> Decimal(n)[0] != '0'
  {
    var head := if n < 10 then "" else Decimal(n / 10);
    var digit := "0123456789"[n % 10];
    assert Decimal(n) == head + [digit] && (head + [digit])[..|head|] == head;
    assert digit == '0' + (n % 10) as char;
    if n >= 10 {
      DecimalIsNumber(n / 10);
    }
  }

  /** The text of a value: empty for None and 0, the string itself, or the decimal number with its sign. */
  lemma TextMeans(v: Val)
    ensures v == VNone || v == VNum(0) ==> Text(v) == ""
    ensures v.VStr? ==> Text(v) == v.s
    ensures v.VNum? && v.n > 0 ==> Text(v) != "" && Number(Text(v)) == v.n && Text(v)[0] != '0'
    ensures v.VNum? && v.n < 0 ==> Text(v) == "-" + Text(VNum(-v.n))
  {
    if v.VNum? && v.n > 0 {
      DecimalIsNumber(v.n);
    }
  }

  /** `in` on a list is membership and on a string is occurrence, and raises where Python does. */
  lemma InMeans(item: Item, field: string, vs: seq<Val>, v: Val)
    ensures var val := Get(item, field);
            && Matches(item, Filter(field, "in", Many(vs))) == Some(val in vs)
            && Matches(item, Filter(field, "in", One(v)))
               == if val.VStr? && v.VStr? then Some(OccursIn(v.s, val.s)) else None
  {
    var val := Get(item, field);
    if val.VStr? && v.VStr? {
      ContainsIsOccurs(v.s, val.s);
    }
  }

  /** `contains` looks for the operand in the text of the value, and raises if it is not a string. */
  lemma ContainsMeans(item: Item, field: string, operand: Operand)
    ensures Matches(item, Filter(field, "contains", operand))
         == if operand.One? && operand.v.VStr? then Some(OccursIn(Text(Get(item, field)), operand.v.s)) else None
  {
    if operand.One? && operand.v.VStr? {
      ContainsIsOccurs(Text(Get(item, field)), operand.v.s);
    }
  }

  // ---------------------------------------------------------------- search

  function Matching(items: seq<Item>, keep: Item -> bool, n: nat): seq<nat>
    requires n <= |items|
  {
    if n == 0 then []
    else Matching(items, keep, n - 1) + if keep(items[n - 1]) then [n - 1] else []
  }

  lemma {:induction false} MatchingFacts(items: seq<Item>, keep: Item -> bool, n: nat)
    requires n <= |items|
    ensures var m := Matching(items, keep, n);
            && (forall i | 0 <= i < |m| :: m[i] < n)
            && (forall i, j | 0 <= i < j < |m| :: m[i] < m[j])
            && (forall x: nat :: x in m <==> x < n && keep(items[x]))
  {
    if n > 0 {
      MatchingFacts(items, keep, n - 1);
    }
  }

  /** Python raises TypeError when a sort has to compare a number with a string. */
  predicate Mixed(items: seq<Item>, s: seq<nat>, field: string)
    requires forall i | 0 <= i < |s| :: s[i] < |items|
  {
    exists i, j | 0 <= i < |s| && 0 <= j < |s| :: KeyOf(items[s[i]], field).KNum? && KeyOf(items[s[j]], field).KStr?
  }

  lemma MixedIgnoresOrder(items: seq<Item>, s: seq<nat>, t: seq<nat>, field: string)
    requires Positions(items, s) && Positions(items, t) && multiset(s) == multiset(t)
    ensures Mixed(items, s, field) ==> Mixed(items, t, field)
  {
    if Mixed(items, s, field) {
      var i, j :| 0 <= i < |s| && 0 <= j < |s| && KeyOf(items[s[i]], field).KNum? && KeyOf(items[s[j]], field).KStr?;
      assert s[i] in multiset(t) && s[j] in multiset(t);
      var a :| 0 <= a < |t| && t[a] == s[i];
      var b :| 0 <= b < |t| && t[b] == s[j];
    }
  }

  /** No field of the sort list mixes numbers and strings among the positions. */
  ghost predicate Sortable(items: seq<Item>, s: seq<nat>, sorts: seq<SortField>)
    requires Positions(items, s)
  {
    forall sf | sf in sorts :: !Mixed(items, s, sf.field)
  }

  lemma SortableFrom(items: seq<Item>, s: seq<nat>, sorts: seq<SortField>, k: nat)
    requires Positions(items, s) && k < |sorts|
    ensures Sortable(items, s, sorts[k..]) <==> !Mixed(items, s, sorts[k].field) && Sortable(items, s, sorts[k + 1..])
    ensures Sortable(items, s, sorts) ==> Sortable(items, s, sorts[k..])
  {
    assert sorts[k..] == [sorts[k]] + sorts[k + 1..];
    assert forall sf | sf in sorts[k..] :: sf in sorts;
  }

  lemma SortableIgnoresOrder(items: seq<Item>, s: seq<nat>, t: seq<nat>, sorts: seq<SortField>)
    requires Positions(items, s) && Positions(items, t) && multiset(s) == multiset(t)
    ensures Sortable(items, s, sorts) <==> Sortable(items, t, sorts)
  {
    forall sf | sf in sorts ensures Mixed(items, s, sf.field) <==> Mixed(items, t, sf.field) {
      MixedIgnoresOrder(items, s, t, sf.field);
      MixedIgnoresOrder(items, t, s, sf.field);
    }
  }

  lemma SortStep(items: seq<Item>, sorts: seq<SortField>, k: nat, matched: seq<nat>)
    requires Positions(items, matched) && k < |sorts|
    ensures SortAll(items, sorts[k..], matched) == StableSort(items, sorts[k], SortAll(items, sorts[k + 1..], matched))
    ensures Mixed(items, SortAll(items, sorts[k + 1..], matched), sorts[k].field) <==> Mixed(items, matched, sorts[k].field)
  {
    assert sorts[k..][1..] == sorts[k + 1..];
    var results := SortAll(items, sorts[k + 1..], matched);
    MixedIgnoresOrder(items, results, matched, sorts[k].field);
    MixedIgnoresOrder(items, matched, results, sorts[k].field);
  }

  /** What one pass of the sort loop does to the loop's state. */
  lemma SortPass(items: seq<Item>, sorts: seq<SortField>, k: nat, matched: seq<nat>, before: seq<nat>)
    requires Positions(items, matched) && k < |sorts| && Positions(items, before)
    requires before == SortAll(items, sorts[k + 1..], matched) && Sortable(items, matched, sorts[k + 1..])
    ensures Mixed(items, before, sorts[k].field) ==> !Sortable(items, matched, sorts)
    ensures !Mixed(items, before, sorts[k].field) ==> Sortable(items, matched, sorts[k..])
    ensures StableSort(items, sorts[k], before) == SortAll(items, sorts[k..], matched)
  {
    SortStep(items, sorts, k, matched);
    SortableFrom(items, matched, sorts, k);
  }

  datatype SearchResult = SearchResult(items: seq<nat>, total: int, page: int, size: int)

  datatype Error = TypeError

  /** `r` holds exactly the matching positions, in lexicographic order. */
  ghost predicate IsSorted(items: seq<Item>, keep: Item -> bool, sorts: seq<SortField>, r: seq<nat>)
  {
    && Positions(items, r) && OrderedBy(items, sorts, r)
    && (forall x: nat :: x in r <==> x < |items| && keep(items[x]))
  }

  class InMemorySearchEngine {
    const items: seq<Item>

    constructor (items: seq<Item>)
      ensures this.items == items
    {
      this.items := items;
    }

    /** None when some filter raises; `text` is the verdict of the text search on one item. */
    method Filtered(text: Item -> bool, filters: seq<Filter>) returns (r: Option<seq<nat>>)
      ensures r.None? <==> exists i | 0 <= i < |items| :: Verdict(text, filters, items[i]).None?
      ensures r.Some? ==> r.value == Matching(items, Keep(text, filters), |items|) && Positions(items, r.value)
    {
      var results := [];
      for i := 0 to |items|
        invariant results == Matching(items, Keep(text, filters), i)
        invariant forall j | 0 <= j < i :: Verdict(text, filters, items[j]).Some?
      {
        var verdict := Verdict(text, filters, items[i]);
        if verdict.None? {
          return None;
        }
        if verdict.value {
          results := results + [i];
        }
      }
      MatchingFacts(items, Keep(text, filters), |items|);
      return Some(results);
    }

    /** None when some sort has to compare a number with a string. */
    method Sort(matched: seq<nat>, sorts: seq<SortField>) returns (r: Option<seq<nat>>)
      requires Positions(items, matched)
      ensures r.None? <==> !Sortable(items, matched, sorts)
      ensures r.Some? ==> r.value == SortAll(items, sorts, matched)
    {
      var results := matched;
      var k := |sorts|;
      assert sorts[k..] == [];
      while k > 0
        invariant 0 <= k <= |sorts| && Positions(items, results)
        invariant results == SortAll(items, sorts[k..], matched)
        invariant Sortable(items, matched, sorts[k..])
      {
        k := k - 1;
        SortPass(items, sorts, k, matched, results);
        if Mixed(items, results, sorts[k].field) {
          return None;
        }
        results := StableSort(items, sorts[k], results);
      }
      assert sorts[0..] == sorts;
      return Some(results);
    }

    /** `whole` is the full result that the returned page is cut from. */
    method Search(text: Item -> bool, filters: seq<Filter>, sorts: seq<SortField>, page: int, size: int)
      returns (r: Result<SearchResult, Error>, ghost whole: seq<nat>)
      ensures IsSorted(items, Keep(text, filters), sorts, whole)
      ensures r.Err? <==> (exists i | 0 <= i < |items| :: Verdict(text, filters, items[i]).None?)
                          || !Sortable(items, whole, sorts)
      ensures r.Ok? ==> r.value == SearchResult(Page(whole, page, size), |whole|, page, size)
    {
      whole := SortedExists(items, Keep(text, filters), sorts);
      var filtered := Filtered(text, filters);
      if filtered.None? {
        return Err(TypeError), whole;
      }
      var matched := filtered.value;
      SortableIgnoresOrder(items, matched, whole, sorts);
      var sorted := Sort(matched, sorts);
      if sorted.None? {
        return Err(TypeError), whole;
      }
      var results := sorted.value;
      var start := Offset(page, size);
      return Ok(SearchResult(PySlice(results, start, start + size), |results|, page, size)), whole;
    }
  }

  /** The repeated sorts of the matching positions produce that list. */
  lemma SortedExists(items: seq<Item>, keep: Item -> bool, sorts: seq<SortField>) returns (whole: seq<nat>)
    ensures IsSorted(items, keep, sorts, whole)
    ensures Positions(items, Matching(items, keep, |items|))
    ensures whole == SortAll(items, sorts, Matching(items, keep, |items|))
  {
    var matched := Matching(items, keep, |items|);
    MatchingFacts(items, keep, |items|);
    RepeatedSortsAreLexicographic(items, sorts, matched);
    whole := SortAll(items, sorts, matched);
    forall x: nat ensures x in whole <==> x < |items| && keep(items[x]) {
      assert x in multiset(whole) <==> x in multiset(matched);
    }
  }
}

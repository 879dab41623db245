/**
 The in-memory stand-in for the database (src/lib/memory-prisma.ts): the
 where-evaluator, updates, the multi-key sort and the collection built on them.
 */
module MemoryStore {
  import opened Wrappers
  import StableSort

  /** `Missing` is an absent field; dates are milliseconds. */
  datatype Value = Missing | Null | Number(n: real) | NotANumber | Text(s: string) | Flag(b: bool) | Date(ms: int)

  type Row = map<string, Value>

  function Get(row: Row, field: string): Value {
    if field in row then row[field] else Missing
  }

  function Truncate(x: real): int {
    if x >= 0.0 then x.Floor else -((-x).Floor)
  }

  /** The time a value denotes when compared with a date. */
  function TimeOf(v: Value): Option<int> {
    match v
    case Date(ms) => Some(ms)
    case Null => Some(0)
    case Number(n) => Some(Truncate(n))
    case Flag(b) => Some(if b then 1 else 0)
    case _ => None
  }

  function NumberOf(v: Value): Option<real> {
    match v
    case Date(ms) => Some(ms as real)
    case Null => Some(0.0)
    case Number(n) => Some(n)
    case Flag(b) => Some(if b then 1.0 else 0.0)
    case _ => None
  }

  predicate ValuesEqual(a: Value, b: Value) {
    if a.Date? || b.Date? then TimeOf(a).Some? && TimeOf(a) == TimeOf(b)
    else a == b && !a.NotANumber?
  }

  // ---------------------------------------------------------------------------
  // Where
  // ---------------------------------------------------------------------------

  datatype Operator =
    | Equals(v: Value) | Not(v: Value) | In(vs: seq<Value>) | NotIn(vs: seq<Value>)
    | Gt(v: Value) | Gte(v: Value) | Lt(v: Value) | Lte(v: Value)
    | Contains(t: string) | StartsWith(t: string) | EndsWith(t: string)

  datatype Cond = Anything | Is(v: Value) | All(ops: seq<Operator>)

  /** `Compound` is a synthetic unique key wrapping the conditions on its real fields. */
  datatype Entry =
    | And(ws: seq<Where>) | Or(ws: seq<Where>) | Negate(w: Where)
    | Field(name: string, cond: Cond) | Compound(synthetic: string, fields: seq<(string, Cond)>)

  datatype Where = Where(entries: seq<Entry>)

  predicate Infix(t: string, s: string) {
    exists i :: 0 <= i <= |s| && t <= s[i..]
  }

  predicate Suffix(t: string, s: string) {
    |t| <= |s| && s[|s| - |t|..] == t
  }

  predicate MatchOperator(v: Value, op: Operator) {
    match op
    case Equals(x) => ValuesEqual(v, x)
    case Not(x) => !ValuesEqual(v, x)
    case In(xs) => exists i :: 0 <= i < |xs| && ValuesEqual(v, xs[i])
    case NotIn(xs) => !exists i :: 0 <= i < |xs| && ValuesEqual(v, xs[i])
    case Gt(x) => NumberOf(v).Some? && NumberOf(x).Some? && NumberOf(v).value > NumberOf(x).value
    case Gte(x) => NumberOf(v).Some? && NumberOf(x).Some? && NumberOf(v).value >= NumberOf(x).value
    case Lt(x) => NumberOf(v).Some? && NumberOf(x).Some? && NumberOf(v).value < NumberOf(x).value
    case Lte(x) => NumberOf(v).Some? && NumberOf(x).Some? && NumberOf(v).value <= NumberOf(x).value
    case Contains(t) => v.Text? && Infix(t, v.s)
    case StartsWith(t) => v.Text? && t <= v.s
    case EndsWith(t) => v.Text? && Suffix(t, v.s)
  }

  predicate MatchField(v: Value, cond: Cond) {
    match cond
    case Anything => true
    case Is(x) => ValuesEqual(v, x)
    case All(ops) => forall i :: 0 <= i < |ops| ==> MatchOperator(v, ops[i])
  }

  /** The key under which an entry is stored in the flattened object. */
  function KeyOf(e: Entry): string {
    match e
    case And(_) => "AND"
    case Or(_) => "OR"
    case Negate(_) => "NOT"
    case Field(name, _) => name
    case Compound(synthetic, _) => synthetic
  }

  function FieldsOf(fields: seq<(string, Cond)>): (r: seq<Entry>)
    ensures |r| == |fields| && forall i :: 0 <= i < |r| ==> r[i] == Field(fields[i].0, fields[i].1)
  {
    seq(|fields|, i requires 0 <= i < |fields| => Field(fields[i].0, fields[i].1))
  }

  /** The assignments that flattening performs, in order. */
  function Parts(entries: seq<Entry>): (r: seq<Entry>)
    ensures forall i :: 0 <= i < |r| ==> !r[i].Compound? && (r[i].Field? || r[i] in entries)
  {
    if entries == [] then []
    else
      var n := |entries| - 1;
      Parts(entries[..n]) + (if entries[n].Compound? then FieldsOf(entries[n].fields) else [entries[n]])
  }

  /** Assigning an object property: in place when the key is there already. */
  function Assign(flat: seq<Entry>, e: Entry): seq<Entry> {
    if flat == [] then [e]
    else if KeyOf(flat[0]) == KeyOf(e) then [e] + flat[1..]
    else [flat[0]] + Assign(flat[1..], e)
  }

  function AssignAll(parts: seq<Entry>): seq<Entry> {
    if parts == [] then [] else Assign(AssignAll(parts[..|parts| - 1]), parts[|parts| - 1])
  }

  lemma AssignMembers(flat: seq<Entry>, e: Entry)
    ensures forall x :: x in Assign(flat, e) ==> x == e || x in flat
  {
  }

  lemma AssignAllMembers(parts: seq<Entry>)
    ensures forall x :: x in AssignAll(parts) ==> x in parts
  {
    if parts != [] {
      AssignAllMembers(parts[..|parts| - 1]);
      AssignMembers(AssignAll(parts[..|parts| - 1]), parts[|parts| - 1]);
    }
  }

  function NormalizeWhere(w: Where): (r: seq<Entry>)
    ensures forall i :: 0 <= i < |r| ==> !r[i].Compound? && (r[i].Field? || r[i] in w.entries)
  {
    var parts := Parts(w.entries);
    var flat := AssignAll(parts);
    AssignAllMembers(parts);
    assert forall i :: 0 <= i < |flat| ==> flat[i] in parts;
    flat
  }

  predicate MatchWhere(row: Row, w: Where)
    decreases w, 1
  {
    var flat := NormalizeWhere(w);
    forall i :: 0 <= i < |flat| ==> MatchEntry(row, w, flat[i])
  }

  predicate MatchEntry(row: Row, ghost w: Where, e: Entry)
    requires !e.Compound? && (e.Field? || e in w.entries)
    decreases w, 0
  {
    match e
    case And(ws) => forall i :: 0 <= i < |ws| ==> MatchWhere(row, ws[i])
    case Or(ws) => exists i :: 0 <= i < |ws| && MatchWhere(row, ws[i])
    case Negate(inner) => !MatchWhere(row, inner)
    case Field(name, cond) => MatchField(Get(row, name), cond)
  }

  // ---------------------------------------------------------------------------
  // What a where means
  // ---------------------------------------------------------------------------

  /** The number that a value stands for in a comparison; missing fields, texts and NaN stand for none. */
  ghost predicate Counts(v: Value, x: real) {
    match v
    case Number(n) => x == n
    case Date(ms) => x == ms as real
    case Flag(b) => x == (if b then 1.0 else 0.0)
    case Null => x == 0.0
    case _ => false
  }

  /** `x` without its fraction, towards zero. */
  predicate WholePart(x: real, t: int) {
    if x >= 0.0 then t as real <= x < t as real + 1.0 else t as real - 1.0 < x <= t as real
  }

  /** The whole millisecond that a value stands for beside a date: a number loses its fraction. */
  ghost predicate Instant(v: Value, t: int) {
    exists x :: Counts(v, x) && WholePart(x, t)
  }

  /** Two values are the same: as instants when one is a date, and otherwise of one kind and equal; NaN equals nothing. */
  ghost predicate Same(a: Value, b: Value) {
    if a.Date? || b.Date? then exists t :: Instant(a, t) && Instant(b, t)
    else
      match a
      case Missing => b.Missing?
      case Null => b.Null?
      case Number(n) => b == Number(n)
      case Text(t) => b == Text(t)
      case Flag(f) => b == Flag(f)
      case _ => false
  }

  /** Whether a value meets an operator, in terms of numbers, membership and concatenation. */
  ghost predicate Meets(v: Value, op: Operator) {
    match op
    case Equals(x) => Same(v, x)
    case Not(x) => !Same(v, x)
    case In(xs) => exists x :: x in xs && Same(v, x)
    case NotIn(xs) => forall x :: x in xs ==> !Same(v, x)
    case Gt(x) => exists a, b :: Counts(v, a) && Counts(x, b) && a > b
    case Gte(x) => exists a, b :: Counts(v, a) && Counts(x, b) && a >= b
    case Lt(x) => exists a, b :: Counts(v, a) && Counts(x, b) && a < b
    case Lte(x) => exists a, b :: Counts(v, a) && Counts(x, b) && a <= b
    case Contains(t) => v.Text? && exists pre, post :: v.s == pre + t + post
    case StartsWith(t) => v.Text? && exists post :: v.s == t + post
    case EndsWith(t) => v.Text? && exists pre :: v.s == pre + t
  }

  ghost predicate MeetsAll(v: Value, cond: Cond) {
    match cond
    case Anything => true
    case Is(x) => Same(v, x)
    case All(ops) => forall op :: op in ops ==> Meets(v, op)
  }

  /** No later assignment to the same key. */
  predicate IsLast(parts: seq<Entry>, k: int) {
    0 <= k < |parts| && forall j :: k < j < |parts| ==> KeyOf(parts[j]) != KeyOf(parts[k])
  }

  /** A where holds when its last condition on every key holds. */
  ghost predicate Meaning(row: Row, w: Where)
    decreases w, 1
  {
    var parts := Parts(w.entries);
    forall k :: 0 <= k < |parts| ==> IsLast(parts, k) ==> Holds(row, w, parts[k])
  }

  ghost predicate Holds(row: Row, w: Where, e: Entry)
    requires !e.Compound? && (e.Field? || e in w.entries)
    decreases w, 0
  {
    match e
    case And(ws) => forall i :: 0 <= i < |ws| ==> Meaning(row, ws[i])
    case Or(ws) => exists i :: 0 <= i < |ws| && Meaning(row, ws[i])
    case Negate(inner) => !Meaning(row, inner)
    case Field(name, cond) => MeetsAll(Get(row, name), cond)
  }

  predicate UniqueKeys(flat: seq<Entry>) {
    forall i, j :: 0 <= i < j < |flat| ==> KeyOf(flat[i]) != KeyOf(flat[j])
  }

  predicate HasNoKey(flat: seq<Entry>, key: string) {
    forall i :: 0 <= i < |flat| ==> KeyOf(flat[i]) != key
  }

  lemma UniqueTail(flat: seq<Entry>)
    requires flat != []
    ensures UniqueKeys(flat) <==> UniqueKeys(flat[1..]) && HasNoKey(flat[1..], KeyOf(flat[0]))
  {
    var rest := flat[1..];
    if UniqueKeys(rest) && HasNoKey(rest, KeyOf(flat[0])) {
      forall i, j | 0 <= i < j < |flat| ensures KeyOf(flat[i]) != KeyOf(flat[j]) {
        assert flat[j] == rest[j - 1];
        if i > 0 { assert flat[i] == rest[i - 1]; }
      }
    }
  }

  lemma MemberOf(flat: seq<Entry>, x: Entry)
    requires flat != []
    ensures x in flat <==> x == flat[0] || x in flat[1..]
  {
    assert flat == [flat[0]] + flat[1..];
  }

  lemma {:induction false} AssignReplaces(flat: seq<Entry>, e: Entry)
    requires UniqueKeys(flat)
    ensures UniqueKeys(Assign(flat, e))
    ensures forall x :: x in Assign(flat, e) <==> x == e || (x in flat && KeyOf(x) != KeyOf(e))
  {
    if flat != [] {
      var head, rest, result := flat[0], flat[1..], Assign(flat, e);
      UniqueTail(flat);
      AssignReplaces(rest, e);
      assert HasNoKey(rest, KeyOf(head)) ==> forall x :: x in rest ==> KeyOf(x) != KeyOf(head);
      forall x ensures x in result <==> x == e || (x in flat && KeyOf(x) != KeyOf(e)) {
        MemberOf(flat, x);
        MemberOf(result, x);
      }
      assert result[1..] == if KeyOf(head) == KeyOf(e) then rest else Assign(rest, e);
      UniqueTail(result);
    }
  }

  ghost predicate LastFor(parts: seq<Entry>, e: Entry) {
    exists k :: IsLast(parts, k) && parts[k] == e
  }

  lemma LastForGrows(parts: seq<Entry>, last: Entry, e: Entry)
    requires LastFor(parts, e) && KeyOf(e) != KeyOf(last)
    ensures LastFor(parts + [last], e)
  {
    var k :| IsLast(parts, k) && parts[k] == e;
    assert IsLast(parts + [last], k);
  }

  lemma LastForShrinks(parts: seq<Entry>, last: Entry, e: Entry)
    requires LastFor(parts + [last], e) && e != last
    ensures LastFor(parts, e) && KeyOf(e) != KeyOf(last)
  {
    var all := parts + [last];
    var k :| IsLast(all, k) && all[k] == e;
    assert k < |parts| && all[|parts|] == last;
    assert forall j :: k < j < |parts| ==> parts[j] == all[j];
    assert IsLast(parts, k);
  }

  lemma LastForStep(parts: seq<Entry>, last: Entry, e: Entry)
    ensures LastFor(parts + [last], e) <==> e == last || (LastFor(parts, e) && KeyOf(e) != KeyOf(last))
  {
    if e == last {
      assert IsLast(parts + [last], |parts|);
    } else if LastFor(parts + [last], e) {
      LastForShrinks(parts, last, e);
    } else if LastFor(parts, e) && KeyOf(e) != KeyOf(last) {
      LastForGrows(parts, last, e);
    }
  }

  /** Flattening keeps exactly the last assignment to each key. */
  lemma {:induction false} LastAssignmentWins(parts: seq<Entry>)
    ensures UniqueKeys(AssignAll(parts))
    ensures forall e :: e in AssignAll(parts) <==> LastFor(parts, e)
  {
    if parts != [] {
      var n := |parts| - 1;
      LastAssignmentWins(parts[..n]);
      AssignReplaces(AssignAll(parts[..n]), parts[n]);
      assert parts == parts[..n] + [parts[n]];
      forall e ensures e in AssignAll(parts) <==> LastFor(parts, e) {
        LastForStep(parts[..n], parts[n], e);
      }
    }
  }

  lemma CountsIff(v: Value, x: real)
    ensures Counts(v, x) <==> NumberOf(v) == Some(x)
  {
  }

  lemma TruncateIsWholePart(x: real, t: int)
    ensures WholePart(x, t) <==> Truncate(x) == t
  {
    var n := if x >= 0.0 then x.Floor else (-x).Floor;
    assert if x >= 0.0 then n as real <= x < n as real + 1.0 else n as real <= -x < n as real + 1.0;
    if WholePart(x, t) {
      if x >= 0.0 { SameWhole(n, t, x); } else { SameWhole(n, -t, -x); }
    }
  }

  lemma SameWhole(m: int, n: int, x: real)
    requires m as real <= x < m as real + 1.0 && n as real <= x < n as real + 1.0
    ensures m == n
  {
    assert (m - n) as real < 1.0 && (n - m) as real < 1.0;
  }

  lemma InstantIff(v: Value, t: int)
    ensures Instant(v, t) <==> TimeOf(v) == Some(t)
  {
    var n := NumberOf(v);
    if n.Some? {
      assert Counts(v, n.value);
      TruncateIsWholePart(n.value, t);
      TimeIsTruncated(v);
      hide Truncate, WholePart;
    }
  }

  lemma TimeIsTruncated(v: Value)
    requires NumberOf(v).Some?
    ensures TimeOf(v) == Some(Truncate(NumberOf(v).value))
  {
    if v.Date? {
      assert WholePart(v.ms as real, v.ms);
      TruncateIsWholePart(v.ms as real, v.ms);
    }
  }

  lemma SameIff(a: Value, b: Value)
    ensures ValuesEqual(a, b) <==> Same(a, b)
  {
    if a.Date? || b.Date? {
      forall t ensures (Instant(a, t) <==> TimeOf(a) == Some(t)) && (Instant(b, t) <==> TimeOf(b) == Some(t)) {
        InstantIff(a, t);
        InstantIff(b, t);
      }
      if TimeOf(a).Some? { assert Instant(a, TimeOf(a).value); }
    }
  }

  lemma InfixIff(t: string, s: string)
    ensures Infix(t, s) <==> exists pre, post :: s == pre + t + post
  {
    if Infix(t, s) {
      var i :| 0 <= i <= |s| && t <= s[i..];
      assert s == s[..i] + t + s[i + |t|..];
    }
    if pre, post :| s == pre + t + post {
      assert s[|pre|..] == t + post;
    }
  }

  lemma PrefixIff(t: string, s: string)
    ensures t <= s <==> exists post :: s == t + post
  {
    if t <= s { assert s == t + s[|t|..]; }
  }

  lemma SuffixIff(t: string, s: string)
    ensures Suffix(t, s) <==> exists pre :: s == pre + t
  {
    if Suffix(t, s) { assert s == s[..|s| - |t|] + t; }
    if pre :| s == pre + t { assert s[|s| - |t|..] == t; }
  }

  /** Every operator selects what it means. */
  lemma MatchOperatorIff(v: Value, op: Operator)
    ensures MatchOperator(v, op) <==> Meets(v, op)
  {
    forall x ensures ValuesEqual(v, x) <==> Same(v, x) {
      SameIff(v, x);
    }
    forall w, x ensures Counts(w, x) <==> NumberOf(w) == Some(x) {
      CountsIff(w, x);
    }
    match op
    case Contains(t) => if v.Text? { InfixIff(t, v.s); }
    case StartsWith(t) => if v.Text? { PrefixIff(t, v.s); }
    case EndsWith(t) => if v.Text? { SuffixIff(t, v.s); }
    case In(xs) =>
    case NotIn(xs) =>
    case Equals(_) =>
    case Not(_) =>
    case _ => ComparisonIff(v, op);
  }

  lemma ComparisonIff(v: Value, op: Operator)
    requires op.Gt? || op.Gte? || op.Lt? || op.Lte?
    ensures MatchOperator(v, op) <==> Meets(v, op)
  {
    var a, b := NumberOf(v), NumberOf(op.v);
    if a.Some? && b.Some? {
      assert Counts(v, a.value) && Counts(op.v, b.value);
    }
  }

  lemma MatchFieldIff(v: Value, cond: Cond)
    ensures MatchField(v, cond) <==> MeetsAll(v, cond)
  {
    match cond
    case Anything =>
    case Is(x) => SameIff(v, x);
    case All(ops) =>
      forall i | 0 <= i < |ops| ensures MatchOperator(v, ops[i]) <==> Meets(v, ops[i]) {
        MatchOperatorIff(v, ops[i]);
      }
  }

  /** The evaluator agrees with the meaning, for every where: nested, compound, and with repeated keys. */
  lemma {:induction false} MatchIsMeaning(row: Row, w: Where)
    ensures MatchWhere(row, w) <==> Meaning(row, w)
    decreases w, 1
  {
    var parts, flat := Parts(w.entries), NormalizeWhere(w);
    LastAssignmentWins(parts);
    forall k | 0 <= k < |parts| ensures MatchEntry(row, w, parts[k]) <==> Holds(row, w, parts[k]) {
      EntryIsMeaning(row, w, parts[k]);
    }
    if MatchWhere(row, w) {
      forall k | 0 <= k < |parts| && IsLast(parts, k) ensures Holds(row, w, parts[k]) {
        assert LastFor(parts, parts[k]);
        assert parts[k] in flat;
      }
    }
    if Meaning(row, w) {
      forall i | 0 <= i < |flat| ensures MatchEntry(row, w, flat[i]) {
        assert LastFor(parts, flat[i]);
        var k :| IsLast(parts, k) && parts[k] == flat[i];
      }
    }
  }

  lemma {:induction false} EntryIsMeaning(row: Row, w: Where, e: Entry)
    requires !e.Compound? && (e.Field? || e in w.entries)
    ensures MatchEntry(row, w, e) <==> Holds(row, w, e)
    decreases w, 0
  {
    match e {
      case And(ws) =>
        forall i | 0 <= i < |ws| ensures MatchWhere(row, ws[i]) <==> Meaning(row, ws[i]) {
          MatchIsMeaning(row, ws[i]);
        }
      case Or(ws) =>
        forall i | 0 <= i < |ws| ensures MatchWhere(row, ws[i]) <==> Meaning(row, ws[i]) {
          MatchIsMeaning(row, ws[i]);
        }
      case Negate(inner) => MatchIsMeaning(row, inner);
      case Field(name, cond) => MatchFieldIff(Get(row, name), cond);
    }
  }

  lemma NegateFlips(row: Row, w: Where)
    ensures MatchWhere(row, Where([Negate(w)])) <==> !MatchWhere(row, w)
  {
    var outer := Where([Negate(w)]);
    assert Parts(outer.entries) == [Negate(w)] by { assert outer.entries[..0] == []; }
    assert NormalizeWhere(outer) == [Negate(w)] by {
      assert AssignAll([Negate(w)]) == Assign(AssignAll([Negate(w)][..0]), Negate(w));
      assert [Negate(w)][..0] == [];
    }
    assert MatchEntry(row, outer, NormalizeWhere(outer)[0]) <==> !MatchWhere(row, w);
  }

  // ---------------------------------------------------------------------------
  // Ordering
  // ---------------------------------------------------------------------------

  datatype SortKey = SortKey(field: string, desc: bool)

  /**
   The comparator handed to the platform's sort. A comparison with something that
   is not a number gives NaN, which the platform reads as 0 and which ends the
   comparison.
   */
  function Compare(a: Row, b: Row, keys: seq<SortKey>): real {
    if keys == [] then 0.0
    else
      var x, y := NumberOf(Get(a, keys[0].field)), NumberOf(Get(b, keys[0].field));
      if x.None? || y.None? then 0.0
      else if x.value == y.value then Compare(a, b, keys[1..])
      else if keys[0].desc then y.value - x.value
      else x.value - y.value
  }

  function NotAfter(keys: seq<SortKey>): (Row, Row) -> bool {
    (a, b) => Compare(a, b, keys) <= 0.0
  }

  function SortRows(rows: seq<Row>, keys: seq<SortKey>): seq<Row> {
    if keys == [] then rows else StableSort.Sort(rows, NotAfter(keys))
  }

  /** Every sort field is a number or a date in all rows, or in none of them. */
  predicate Uniform(rows: seq<Row>, keys: seq<SortKey>) {
    forall k, i, j :: 0 <= k < |keys| && 0 <= i < |rows| && 0 <= j < |rows| ==>
      (NumberOf(Get(rows[i], keys[k].field)).Some? <==> NumberOf(Get(rows[j], keys[k].field)).Some?)
  }

  lemma {:induction false} CompareFlips(a: Row, b: Row, keys: seq<SortKey>)
    ensures Compare(a, b, keys) == -Compare(b, a, keys)
  {
    if keys != [] {
      CompareFlips(a, b, keys[1..]);
    }
  }

  lemma {:induction false} CompareTransitive(a: Row, b: Row, c: Row, keys: seq<SortKey>)
    requires Uniform([a, b, c], keys)
    requires Compare(a, b, keys) <= 0.0 && Compare(b, c, keys) <= 0.0
    ensures Compare(a, c, keys) <= 0.0
  {
    if keys != [] {
      var rows := [a, b, c];
      assert forall i, j :: 0 <= i < 3 && 0 <= j < 3 ==>
        (NumberOf(Get(rows[i], keys[0].field)).Some? <==> NumberOf(Get(rows[j], keys[0].field)).Some?);
      assert rows[0] == a && rows[1] == b && rows[2] == c;
      var x, y, z :=
        NumberOf(Get(a, keys[0].field)), NumberOf(Get(b, keys[0].field)), NumberOf(Get(c, keys[0].field));
      if x.Some? && x == y && y == z {
        CompareTransitive(a, b, c, keys[1..]);
      }
    }
  }

  lemma UniformIsPreorder(rows: seq<Row>, keys: seq<SortKey>)
    requires Uniform(rows, keys)
    ensures StableSort.Preorder(rows, NotAfter(keys))
  {
    var leq := NotAfter(keys);
    forall a, b | a in rows && b in rows ensures leq(a, b) || leq(b, a) {
      CompareFlips(a, b, keys);
    }
    forall a, b, c | a in rows && b in rows && c in rows && leq(a, b) && leq(b, c) ensures leq(a, c) {
      CompareTransitive(a, b, c, keys);
    }
  }

  /**
   On rows whose sort fields are numbers or dates throughout, the result is a
   permutation in order that keeps rows comparing equal as they were; and it is
   the only one, whatever stable sort produced it.
   */
  lemma SortRowsIsTheStableOrder(rows: seq<Row>, keys: seq<SortKey>, other: seq<Row>)
    requires keys != [] && Uniform(rows, keys)
    ensures StableSort.Sorted(SortRows(rows, keys), NotAfter(keys))
    ensures multiset(SortRows(rows, keys)) == multiset(rows)
    ensures forall x :: x in rows ==>
              StableSort.ClassOf(SortRows(rows, keys), x, NotAfter(keys)) == StableSort.ClassOf(rows, x, NotAfter(keys))
    ensures multiset(other) == multiset(rows) && StableSort.Sorted(other, NotAfter(keys))
            && (forall x :: x in rows ==>
                  StableSort.ClassOf(other, x, NotAfter(keys)) == StableSort.ClassOf(rows, x, NotAfter(keys)))
            ==> other == SortRows(rows, keys)
  {
    UniformIsPreorder(rows, keys);
    StableSort.SortSorted(rows, NotAfter(keys));
    forall x | x in rows
      ensures StableSort.ClassOf(SortRows(rows, keys), x, NotAfter(keys))
           == StableSort.ClassOf(rows, x, NotAfter(keys))
    {
      StableSort.SortStable(rows, x, NotAfter(keys));
    }
    if multiset(other) == multiset(rows) && StableSort.Sorted(other, NotAfter(keys))
       && (forall x :: x in rows ==>
             StableSort.ClassOf(other, x, NotAfter(keys)) == StableSort.ClassOf(rows, x, NotAfter(keys)))
    {
      StableSort.SortIsTheStableArrangement(rows, other, NotAfter(keys));
    }
  }

  /** Both rows have the same number or date in the field. */
  predicate TiedOn(a: Row, b: Row, field: string) {
    NumberOf(Get(a, field)).Some? && NumberOf(Get(a, field)) == NumberOf(Get(b, field))
  }

  /** On the first key that tells the rows apart, `a` has the smaller number, or the larger one if the key is descending. */
  ghost predicate InOrder(a: Row, b: Row, keys: seq<SortKey>) {
    forall k, x, y ::
      && 0 <= k < |keys| && (forall j :: 0 <= j < k ==> TiedOn(a, b, keys[j].field))
      && Counts(Get(a, keys[k].field), x) && Counts(Get(b, keys[k].field), y) ==>
        if keys[k].desc then x >= y else x <= y
  }

  lemma InOrderTail(a: Row, b: Row, keys: seq<SortKey>)
    requires keys != [] && TiedOn(a, b, keys[0].field)
    ensures InOrder(a, b, keys) <==> InOrder(a, b, keys[1..])
  {
    var rest := keys[1..];
    var field := keys[0].field;
    if InOrder(a, b, keys) {
      forall k, x, y |
        && 0 <= k < |rest| && (forall j :: 0 <= j < k ==> TiedOn(a, b, rest[j].field))
        && Counts(Get(a, rest[k].field), x) && Counts(Get(b, rest[k].field), y)
        ensures if rest[k].desc then x >= y else x <= y
      {
        assert forall j :: 0 <= j < k + 1 ==> TiedOn(a, b, keys[j].field) by {
          forall j | 0 <= j < k + 1 ensures TiedOn(a, b, keys[j].field) {
            if j > 0 { assert keys[j] == rest[j - 1]; }
          }
        }
        assert keys[k + 1] == rest[k];
      }
    }
    if InOrder(a, b, rest) {
      forall k, x, y |
        && 0 <= k < |keys| && (forall j :: 0 <= j < k ==> TiedOn(a, b, keys[j].field))
        && Counts(Get(a, keys[k].field), x) && Counts(Get(b, keys[k].field), y)
        ensures if keys[k].desc then x >= y else x <= y
      {
        CountsIff(Get(a, keys[k].field), x);
        CountsIff(Get(b, keys[k].field), y);
        if k > 0 {
          assert forall j :: 0 <= j < k - 1 ==> TiedOn(a, b, rest[j].field) by {
            forall j | 0 <= j < k - 1 ensures TiedOn(a, b, rest[j].field) {
              assert keys[j + 1] == rest[j];
            }
          }
          assert keys[k] == rest[k - 1];
        }
      }
    }
  }

  /** The comparator puts rows in this order, whatever their fields hold. */
  lemma {:induction false} CompareIsInOrder(a: Row, b: Row, keys: seq<SortKey>)
    ensures Compare(a, b, keys) <= 0.0 <==> InOrder(a, b, keys)
  {
    if keys != [] {
      var x, y := NumberOf(Get(a, keys[0].field)), NumberOf(Get(b, keys[0].field));
      if x.Some? && x == y {
        InOrderTail(a, b, keys);
        CompareIsInOrder(a, b, keys[1..]);
      } else {
        DecidedByFirst(a, b, keys);
      }
    }
  }

  lemma DecidedByFirst(a: Row, b: Row, keys: seq<SortKey>)
    requires keys != [] && !TiedOn(a, b, keys[0].field)
    ensures InOrder(a, b, keys) <==>
            forall x, y :: Counts(Get(a, keys[0].field), x) && Counts(Get(b, keys[0].field), y) ==>
              if keys[0].desc then x >= y else x <= y
    ensures Compare(a, b, keys) <= 0.0 <==> InOrder(a, b, keys)
  {
    var va, vb := Get(a, keys[0].field), Get(b, keys[0].field);
    forall x ensures (Counts(va, x) <==> NumberOf(va) == Some(x)) && (Counts(vb, x) <==> NumberOf(vb) == Some(x)) {
      CountsIff(va, x);
      CountsIff(vb, x);
    }
    if NumberOf(va).Some? && NumberOf(vb).Some? {
      assert Counts(va, NumberOf(va).value) && Counts(vb, NumberOf(vb).value);
    }
  }

  /** So sorted rows are ordered by the first key that tells them apart. */
  lemma SortedByFirstDifference(rows: seq<Row>, keys: seq<SortKey>)
    requires keys != [] && Uniform(rows, keys)
    ensures |SortRows(rows, keys)| == |rows|
    ensures forall i, j :: 0 <= i < j < |rows| ==> InOrder(SortRows(rows, keys)[i], SortRows(rows, keys)[j], keys)
  {
    SortRowsIsTheStableOrder(rows, keys, rows);
    var sorted := SortRows(rows, keys);
    assert |multiset(sorted)| == |multiset(rows)|;
    forall i, j | 0 <= i < j < |rows| ensures InOrder(sorted[i], sorted[j], keys) {
      CompareIsInOrder(sorted[i], sorted[j], keys);
      assert NotAfter(keys)(sorted[i], sorted[j]);
    }
  }

  // ---------------------------------------------------------------------------
  // Updates
  // ---------------------------------------------------------------------------

  datatype Change = Skip | Put(v: Value) | Plus(delta: real) | Minus(delta: real) | Times(delta: real) | SetTo(v: Value)

  function Arithmetic(current: Value, change: Change): Value
    requires change.Plus? || change.Minus? || change.Times?
  {
    var n := if current.Missing? then Some(0.0) else NumberOf(current);
    if n.None? then NotANumber
    else
      match change
      case Plus(delta) => Number(n.value + delta)
      case Minus(delta) => Number(n.value - delta)
      case Times(delta) => Number(n.value * delta)
  }

  function ApplyChanges(row: Row, data: seq<(string, Change)>): Row {
    if data == [] then row
    else
      var n := |data| - 1;
      var before := ApplyChanges(row, data[..n]);
      match data[n].1
      case Skip => before
      case Put(v) => before[data[n].0 := v]
      case SetTo(v) => before[data[n].0 := v]
      case _ => before[data[n].0 := Arithmetic(Get(before, data[n].0), data[n].1)]
  }

  function ApplyUpdateData(row: Row, data: seq<(string, Change)>, now: int): Row {
    var next := ApplyChanges(row, data);
    if "updatedAt" in row then next["updatedAt" := Date(now)] else next
  }

  /** Names are assigned at most once, as the properties of one object are. */
  predicate DistinctNames(data: seq<(string, Change)>) {
    forall i, j :: 0 <= i < j < |data| ==> data[i].0 != data[j].0
  }

  /** `now` is what the change makes of `was`: an absent field counts as zero, and what is not a number stays none. */
  ghost predicate ChangedTo(was: Value, change: Change, now: Value) {
    match change
    case Skip => now == was
    case Put(v) => now == v
    case SetTo(v) => now == v
    case Plus(delta) =>
      (!IsAmount(was) ==> now.NotANumber?) && forall x :: Amounts(was, x) ==> now == Number(x + delta)
    case Minus(delta) =>
      (!IsAmount(was) ==> now.NotANumber?) && forall x :: Amounts(was, x) ==> now == Number(x - delta)
    case Times(delta) =>
      (!IsAmount(was) ==> now.NotANumber?) && forall x :: Amounts(was, x) ==> now == Number(x * delta)
  }

  ghost predicate Amounts(v: Value, x: real) {
    Counts(v, x) || (v.Missing? && x == 0.0)
  }

  ghost predicate IsAmount(v: Value) {
    exists x :: Amounts(v, x)
  }

  lemma AmountsIff(v: Value, x: real)
    ensures Amounts(v, x) <==> (if v.Missing? then Some(0.0) else NumberOf(v)) == Some(x)
  {
    CountsIff(v, x);
  }

  lemma ArithmeticChanges(was: Value, change: Change)
    requires change.Plus? || change.Minus? || change.Times?
    ensures ChangedTo(was, change, Arithmetic(was, change))
  {
    var n := if was.Missing? then Some(0.0) else NumberOf(was);
    forall x ensures Amounts(was, x) <==> n == Some(x) {
      AmountsIff(was, x);
    }
    hide Amounts, NumberOf;
    if n.Some? { assert Amounts(was, n.value); }
  }

  lemma {:induction false} ChangesTold(row: Row, data: seq<(string, Change)>, field: string)
    requires DistinctNames(data)
    ensures (forall i :: 0 <= i < |data| ==> data[i].0 != field) ==>
              Get(ApplyChanges(row, data), field) == Get(row, field)
    ensures forall i :: 0 <= i < |data| && data[i].0 == field ==>
              ChangedTo(Get(row, field), data[i].1, Get(ApplyChanges(row, data), field))
    ensures field in row ==> field in ApplyChanges(row, data)
  {
    if data != [] {
      var n := |data| - 1;
      ChangesTold(row, data[..n], field);
      hide ChangedTo, Arithmetic, ApplyChanges;
      OneChange(row, data, field);
      forall i | 0 <= i < |data| && data[i].0 == field
        ensures ChangedTo(Get(row, field), data[i].1, Get(ApplyChanges(row, data), field))
      {
        if i < n {
          assert data[..n][i] == data[i];
        } else {
          assert forall k :: 0 <= k < n ==> data[..n][k].0 != field;
        }
      }
    }
  }

  /** The last change touches its own field only. */
  lemma OneChange(row: Row, data: seq<(string, Change)>, field: string)
    requires data != []
    ensures var n := |data| - 1;
            var before, after := ApplyChanges(row, data[..n]), ApplyChanges(row, data);
            && (field != data[n].0 ==> Get(after, field) == Get(before, field))
            && (field in before ==> field in after)
            && (field == data[n].0 ==> ChangedTo(Get(before, field), data[n].1, Get(after, field)))
  {
    var n := |data| - 1;
    var before := ApplyChanges(row, data[..n]);
    if data[n].1.Plus? || data[n].1.Minus? || data[n].1.Times? {
      ArithmeticChanges(Get(before, data[n].0), data[n].1);
    }
  }

  /**
   An update leaves each field as its change makes it, every field it does not name
   as it was, and `updatedAt`, where there is one, at the time of the update.
   */
  lemma UpdateTold(row: Row, data: seq<(string, Change)>, now: int, field: string)
    requires DistinctNames(data)
    ensures var after := Get(ApplyUpdateData(row, data, now), field);
            if field == "updatedAt" && field in row then after == Date(now)
            else
              && ((forall i :: 0 <= i < |data| ==> data[i].0 != field) ==> after == Get(row, field))
              && forall i :: 0 <= i < |data| && data[i].0 == field ==> ChangedTo(Get(row, field), data[i].1, after)
  {
    ChangesTold(row, data, field);
    hide ChangedTo, ApplyChanges;
  }

  // ---------------------------------------------------------------------------
  // The collection
  // ---------------------------------------------------------------------------

  function Filter(rows: seq<Row>, w: Where): (r: seq<Row>)
    ensures |r| <= |rows|
  {
    if rows == [] then []
    else
      var n := |rows| - 1;
      Filter(rows[..n], w) + (if MatchWhere(rows[n], w) then [rows[n]] else [])
  }

  function Slice(rows: seq<Row>, start: nat, take: Option<nat>): seq<Row> {
    if start >= |rows| then []
    else if take.None? || start + take.value >= |rows| then rows[start..]
    else rows[start..start + take.value]
  }

  /** A slice is the rows from `start` on, as many as asked for or as there are. */
  lemma SliceTold(rows: seq<Row>, start: nat, take: Option<nat>)
    ensures var slice := Slice(rows, start, take);
            var rest := if start < |rows| then |rows| - start else 0;
            && |slice| == (if take.Some? && take.value < rest then take.value else rest)
            && forall k :: 0 <= k < |slice| ==> slice[k] == rows[start + k]
  {
  }

  predicate AtCursor(row: Row, cursor: seq<(string, Value)>) {
    forall i :: 0 <= i < |cursor| ==> ValuesEqual(Get(row, cursor[i].0), cursor[i].1)
  }

  function FindIndex(rows: seq<Row>, cursor: seq<(string, Value)>, from: nat): (r: Option<nat>)
    requires from <= |rows|
    ensures r.Some? ==> from <= r.value < |rows| && AtCursor(rows[r.value], cursor)
                        && forall i :: from <= i < r.value ==> !AtCursor(rows[i], cursor)
    ensures r.None? ==> forall i :: from <= i < |rows| ==> !AtCursor(rows[i], cursor)
    decreases |rows| - from
  {
    if from == |rows| then None
    else if AtCursor(rows[from], cursor) then Some(from)
    else FindIndex(rows, cursor, from + 1)
  }

  datatype Query = Query(
    filter: Where, keys: seq<SortKey>, take: Option<nat>, skip: nat, cursor: Option<seq<(string, Value)>>)

  /** The part of a query that works on the filtered and sorted rows. */
  function SelectFrom(sorted: seq<Row>, q: Query): seq<Row> {
    var start :=
      if q.cursor.None? then q.skip
      else
        var i := FindIndex(sorted, q.cursor.value, 0);
        if i.None? then |sorted| else i.value + q.skip;
    Slice(sorted, start, q.take)
  }

  function FindMany(rows: seq<Row>, q: Query): seq<Row> {
    SelectFrom(SortRows(Filter(rows, q.filter), q.keys), q)
  }

  /** The text of an id value, which is the key of its row in the collection's map. */
  type TextOf = Value -> string

  function IdOf(row: Row, idField: string, text: TextOf): string {
    text(Get(row, idField))
  }

  predicate UniqueIds(rows: seq<Row>, idField: string, text: TextOf) {
    forall i, j :: 0 <= i < j < |rows| ==> IdOf(rows[i], idField, text) != IdOf(rows[j], idField, text)
  }

  function IndexOf(rows: seq<Row>, id: string, idField: string, text: TextOf): (r: Option<nat>)
    ensures r.Some? ==> r.value < |rows| && IdOf(rows[r.value], idField, text) == id
    ensures r.None? ==> forall i :: 0 <= i < |rows| ==> IdOf(rows[i], idField, text) != id
  {
    if rows == [] then None
    else if IdOf(rows[|rows| - 1], idField, text) == id then Some(|rows| - 1)
    else IndexOf(rows[..|rows| - 1], id, idField, text)
  }

  /** Setting a map entry: in place when the key is there already, else at the end. */
  function SetRow(rows: seq<Row>, row: Row, idField: string, text: TextOf): seq<Row> {
    var i := IndexOf(rows, IdOf(row, idField, text), idField, text);
    if i.Some? then rows[i.value := row] else rows + [row]
  }

  function SetAll(rows: seq<Row>, changed: seq<Row>, idField: string, text: TextOf): seq<Row> {
    if changed == [] then rows
    else
      SetRow(SetAll(rows, changed[..|changed| - 1], idField, text), changed[|changed| - 1], idField, text)
  }

  function DeleteRow(rows: seq<Row>, id: string, idField: string, text: TextOf): seq<Row> {
    var i := IndexOf(rows, id, idField, text);
    if i.Some? then rows[..i.value] + rows[i.value + 1..] else rows
  }

  function Updated(rows: seq<Row>, data: seq<(string, Change)>, now: int): (r: seq<Row>)
    ensures |r| == |rows| && forall i :: 0 <= i < |r| ==> r[i] == ApplyUpdateData(rows[i], data, now)
  {
    seq(|rows|, i requires 0 <= i < |rows| => ApplyUpdateData(rows[i], data, now))
  }

  class MemoryCollection {
    const idField: string
    const text: TextOf
    var rows: seq<Row>

    constructor (idField: string, text: TextOf)
      ensures this.idField == idField && this.text == text && rows == []
    {
      this.idField, this.text, rows := idField, text, [];
    }

    ghost predicate Valid()
      reads this
    {
      UniqueIds(rows, idField, text)
    }

    /** `row` already carries its defaults, times and id. */
    method Create(row: Row)
      requires Valid()
      modifies this
      ensures Valid() && rows == SetRow(old(rows), row, idField, text)
    {
      SetRowKeepsIds(rows, row, idField, text);
      rows := SetRow(rows, row, idField, text);
    }

    method Count(w: Where) returns (n: nat)
      ensures n == |Filter(rows, w)|
    {
      n := 0;
      for i := 0 to |rows|
        invariant n == |Filter(rows[..i], w)|
      {
        assert rows[..i + 1][..i] == rows[..i];
        if MatchWhere(rows[i], w) { n := n + 1; }
      }
      assert rows[..|rows|] == rows;
    }

    /** The oldest matching row is updated; `None` is the error for no match. */
    method Update(w: Where, data: seq<(string, Change)>, now: int) returns (updated: Option<Row>)
      requires Valid()
      modifies this
      ensures Valid()
      ensures Filter(old(rows), w) == [] ==> updated == None && rows == old(rows)
      ensures Filter(old(rows), w) != [] ==>
                && updated == Some(ApplyUpdateData(Filter(old(rows), w)[0], data, now))
                && rows == SetRow(old(rows), updated.value, idField, text)
    {
      var matches := Filter(rows, w);
      if matches == [] { return None; }
      var next := ApplyUpdateData(matches[0], data, now);
      SetRowKeepsIds(rows, next, idField, text);
      rows := SetRow(rows, next, idField, text);
      updated := Some(next);
    }

    /** The oldest matching row goes; `None` is the error for no match. */
    method Delete(w: Where) returns (deleted: Option<Row>)
      requires Valid()
      modifies this
      ensures Valid()
      ensures Filter(old(rows), w) == [] ==> deleted == None && rows == old(rows)
      ensures Filter(old(rows), w) != [] ==>
                && deleted == Some(Filter(old(rows), w)[0])
                && rows == Without(old(rows), {IdOf(deleted.value, idField, text)}, idField, text)
    {
      var matches := Filter(rows, w);
      if matches == [] { return None; }
      var id := IdOf(matches[0], idField, text);
      DeleteRowRemoves(rows, id, idField, text);
      WithoutKeepsIds(rows, {id}, idField, text);
      rows := DeleteRow(rows, id, idField, text);
      deleted := Some(matches[0]);
    }

    method UpdateMany(w: Where, data: seq<(string, Change)>, now: int) returns (count: nat)
      requires Valid()
      modifies this
      ensures Valid() && count == |Filter(old(rows), w)|
      ensures rows == SetAll(old(rows), Updated(Filter(old(rows), w), data, now), idField, text)
    {
      var matches := Filter(rows, w);
      ghost var changed := Updated(matches, data, now);
      for i := 0 to |matches|
        invariant Valid()
        invariant rows == SetAll(old(rows), changed[..i], idField, text)
      {
        var updated := ApplyUpdateData(matches[i], data, now);
        assert changed[..i + 1][..i] == changed[..i] && changed[i] == updated;
        SetRowKeepsIds(rows, updated, idField, text);
        rows := SetRow(rows, updated, idField, text);
      }
      assert changed[..|matches|] == changed;
      count := |matches|;
    }

    /** Exactly the matching rows go; the others stay, in order. */
    method DeleteMany(w: Where) returns (count: nat)
      requires Valid()
      modifies this
      ensures Valid() && count == |Filter(old(rows), w)|
      ensures rows == Filter(old(rows), Where([Negate(w)]))
    {
      var matches := Filter(rows, w);
      WithoutNothing(rows, idField, text);
      assert IdsOf(matches[..0], idField, text) == {};
      for i := 0 to |matches|
        invariant rows == Without(old(rows), IdsOf(matches[..i], idField, text), idField, text)
      {
        DeleteNextMatch(old(rows), matches, i, idField, text);
        rows := DeleteRow(rows, IdOf(matches[i], idField, text), idField, text);
      }
      assert matches[..|matches|] == matches;
      forall k | 0 <= k < |old(rows)|
        ensures IdOf(old(rows)[k], idField, text) in IdsOf(matches, idField, text) <==> MatchWhere(old(rows)[k], w)
      {
        MatchesById(old(rows), w, idField, text, k);
      }
      WithoutKeepsIds(old(rows), IdsOf(matches, idField, text), idField, text);
      WithoutIsFilter(old(rows), IdsOf(matches, idField, text), w, idField, text);
      count := |matches|;
    }
  }

  // ---------------------------------------------------------------------------
  // Properties of the collection
  // ---------------------------------------------------------------------------

  lemma SetRowKeepsIds(rows: seq<Row>, row: Row, idField: string, text: TextOf)
    requires UniqueIds(rows, idField, text)
    ensures UniqueIds(SetRow(rows, row, idField, text), idField, text)
  {
  }

  /** The rows whose id is not in a set, in order. */
  function Without(rows: seq<Row>, ids: set<string>, idField: string, text: TextOf): seq<Row> {
    if rows == [] then []
    else
      var n := |rows| - 1;
      Without(rows[..n], ids, idField, text) + (if IdOf(rows[n], idField, text) in ids then [] else [rows[n]])
  }

  function IdsOf(rows: seq<Row>, idField: string, text: TextOf): set<string> {
    set i | 0 <= i < |rows| :: IdOf(rows[i], idField, text)
  }

  lemma FilterMembers(rows: seq<Row>, w: Where)
    ensures forall x :: x in Filter(rows, w) <==> x in rows && MatchWhere(x, w)
  {
  }

  lemma WithoutMembers(rows: seq<Row>, ids: set<string>, idField: string, text: TextOf)
    ensures forall x :: x in Without(rows, ids, idField, text) <==> x in rows && IdOf(x, idField, text) !in ids
  {
  }

  lemma WithoutNothing(rows: seq<Row>, idField: string, text: TextOf)
    ensures Without(rows, {}, idField, text) == rows
  {
  }

  lemma {:induction false} WithoutKeepsIds(rows: seq<Row>, ids: set<string>, idField: string, text: TextOf)
    requires UniqueIds(rows, idField, text)
    ensures UniqueIds(Without(rows, ids, idField, text), idField, text)
  {
    if rows != [] {
      var init, last := rows[..|rows| - 1], rows[|rows| - 1];
      LastIsNew(rows, idField, text);
      WithoutKeepsIds(init, ids, idField, text);
      WithoutMembers(init, ids, idField, text);
      UniqueAppend(Without(init, ids, idField, text), last, idField, text);
    }
  }

  lemma WithoutAppend(rows: seq<Row>, x: Row, ids: set<string>, idField: string, text: TextOf)
    ensures Without(rows + [x], ids, idField, text)
         == Without(rows, ids, idField, text) + (if IdOf(x, idField, text) in ids then [] else [x])
  {
    assert (rows + [x])[..|rows|] == rows;
  }

  lemma {:induction false} WithoutConcat(a: seq<Row>, b: seq<Row>, ids: set<string>, idField: string, text: TextOf)
    ensures Without(a + b, ids, idField, text) == Without(a, ids, idField, text) + Without(b, ids, idField, text)
  {
    if b == [] {
      assert a + b == a;
    } else {
      var init, last := b[..|b| - 1], b[|b| - 1];
      assert b == init + [last] && a + b == (a + init) + [last];
      WithoutConcat(a, init, ids, idField, text);
      WithoutAppend(a + init, last, ids, idField, text);
      WithoutAppend(init, last, ids, idField, text);
    }
  }

  lemma {:induction false} WithoutTwice(rows: seq<Row>, ids: set<string>, id: string, idField: string, text: TextOf)
    ensures Without(Without(rows, ids, idField, text), {id}, idField, text)
         == Without(rows, ids + {id}, idField, text)
  {
    if rows != [] {
      var n := |rows| - 1;
      WithoutTwice(rows[..n], ids, id, idField, text);
      var kept := Without(rows[..n], ids, idField, text);
      if IdOf(rows[n], idField, text) in ids {
        assert Without(rows, ids, idField, text) == kept;
      } else {
        WithoutAppend(kept, rows[n], {id}, idField, text);
      }
    }
  }

  lemma WithoutAbsent(rows: seq<Row>, id: string, idField: string, text: TextOf)
    requires forall i :: 0 <= i < |rows| ==> IdOf(rows[i], idField, text) != id
    ensures Without(rows, {id}, idField, text) == rows
  {
    if rows != [] {
      WithoutAbsent(rows[..|rows| - 1], id, idField, text);
    }
  }

  lemma WithoutMiddle(before: seq<Row>, x: Row, after: seq<Row>, idField: string, text: TextOf)
    requires UniqueIds(before + [x] + after, idField, text)
    ensures Without(before + [x] + after, {IdOf(x, idField, text)}, idField, text) == before + after
  {
    var all, id := before + [x] + after, IdOf(x, idField, text);
    assert all[|before|] == x;
    forall i | 0 <= i < |before| ensures IdOf(before[i], idField, text) != id { assert all[i] == before[i]; }
    forall i | 0 <= i < |after| ensures IdOf(after[i], idField, text) != id { assert all[|before| + 1 + i] == after[i]; }
    WithoutAbsent(before, id, idField, text);
    WithoutAbsent(after, id, idField, text);
    WithoutAppend(before, x, {id}, idField, text);
    WithoutConcat(before + [x], after, {id}, idField, text);
    assert before + [] == before;
  }

  /** Deleting a map entry removes the one row with that id. */
  lemma DeleteRowRemoves(rows: seq<Row>, id: string, idField: string, text: TextOf)
    requires UniqueIds(rows, idField, text)
    ensures DeleteRow(rows, id, idField, text) == Without(rows, {id}, idField, text)
  {
    var i := IndexOf(rows, id, idField, text);
    if i.None? {
      WithoutAbsent(rows, id, idField, text);
    } else {
      assert rows == rows[..i.value] + [rows[i.value]] + rows[i.value + 1..];
      WithoutMiddle(rows[..i.value], rows[i.value], rows[i.value + 1..], idField, text);
    }
  }

  lemma LastIsNew(rows: seq<Row>, idField: string, text: TextOf)
    requires rows != [] && UniqueIds(rows, idField, text)
    ensures UniqueIds(rows[..|rows| - 1], idField, text)
    ensures forall x :: x in rows[..|rows| - 1] ==> IdOf(x, idField, text) != IdOf(rows[|rows| - 1], idField, text)
  {
  }

  lemma UniqueAppend(rows: seq<Row>, x: Row, idField: string, text: TextOf)
    requires UniqueIds(rows, idField, text)
    requires forall y :: y in rows ==> IdOf(y, idField, text) != IdOf(x, idField, text)
    ensures UniqueIds(rows + [x], idField, text)
  {
  }

  lemma {:induction false} FilterIsDistinct(rows: seq<Row>, w: Where, idField: string, text: TextOf)
    requires UniqueIds(rows, idField, text)
    ensures UniqueIds(Filter(rows, w), idField, text)
  {
    if rows != [] {
      var init, last := rows[..|rows| - 1], rows[|rows| - 1];
      LastIsNew(rows, idField, text);
      FilterIsDistinct(init, w, idField, text);
      FilterMembers(init, w);
      UniqueAppend(Filter(init, w), last, idField, text);
    }
  }

  lemma DeleteNextMatch(rows: seq<Row>, matches: seq<Row>, i: nat, idField: string, text: TextOf)
    requires UniqueIds(rows, idField, text) && i < |matches|
    ensures DeleteRow(Without(rows, IdsOf(matches[..i], idField, text), idField, text),
                      IdOf(matches[i], idField, text), idField, text)
         == Without(rows, IdsOf(matches[..i + 1], idField, text), idField, text)
  {
    var ids, id := IdsOf(matches[..i], idField, text), IdOf(matches[i], idField, text);
    WithoutKeepsIds(rows, ids, idField, text);
    DeleteRowRemoves(Without(rows, ids, idField, text), id, idField, text);
    WithoutTwice(rows, ids, id, idField, text);
    assert IdsOf(matches[..i + 1], idField, text) == ids + {id};
  }

  lemma {:induction false} WithoutIsFilter(rows: seq<Row>, ids: set<string>, w: Where, idField: string, text: TextOf)
    requires forall k :: 0 <= k < |rows| ==> (IdOf(rows[k], idField, text) in ids <==> MatchWhere(rows[k], w))
    ensures Without(rows, ids, idField, text) == Filter(rows, Where([Negate(w)]))
  {
    if rows != [] {
      WithoutIsFilter(rows[..|rows| - 1], ids, w, idField, text);
      NegateFlips(rows[|rows| - 1], w);
    }
  }

  lemma IdOfMatch(rows: seq<Row>, w: Where, idField: string, text: TextOf, x: Row)
    requires x in Filter(rows, w)
    ensures IdOf(x, idField, text) in IdsOf(Filter(rows, w), idField, text)
  {
    var i :| 0 <= i < |Filter(rows, w)| && Filter(rows, w)[i] == x;
  }

  lemma MatchOfId(rows: seq<Row>, w: Where, idField: string, text: TextOf, id: string) returns (x: Row)
    requires id in IdsOf(Filter(rows, w), idField, text)
    ensures x in Filter(rows, w) && IdOf(x, idField, text) == id
  {
    var i :| 0 <= i < |Filter(rows, w)| && IdOf(Filter(rows, w)[i], idField, text) == id;
    x := Filter(rows, w)[i];
  }

  lemma SameIdSameRow(rows: seq<Row>, idField: string, text: TextOf, x: Row, y: Row)
    requires UniqueIds(rows, idField, text) && x in rows && y in rows
    requires IdOf(x, idField, text) == IdOf(y, idField, text)
    ensures x == y
  {
  }

  /** A row's id is among the ids of the matching rows exactly when the row matches. */
  lemma MatchesById(rows: seq<Row>, w: Where, idField: string, text: TextOf, k: nat)
    requires UniqueIds(rows, idField, text) && k < |rows|
    ensures IdOf(rows[k], idField, text) in IdsOf(Filter(rows, w), idField, text) <==> MatchWhere(rows[k], w)
  {
    FilterMembers(rows, w);
    if MatchWhere(rows[k], w) {
      IdOfMatch(rows, w, idField, text, rows[k]);
    } else if IdOf(rows[k], idField, text) in IdsOf(Filter(rows, w), idField, text) {
      var x := MatchOfId(rows, w, idField, text, IdOf(rows[k], idField, text));
      SameIdSameRow(rows, idField, text, x, rows[k]);
    }
  }

  /** Counting a where and counting its negation adds up to the size of the collection. */
  lemma {:induction false} CountsAddUp(rows: seq<Row>, w: Where)
    ensures |Filter(rows, w)| + |Filter(rows, Where([Negate(w)]))| == |rows|
  {
    if rows != [] {
      CountsAddUp(rows[..|rows| - 1], w);
      NegateFlips(rows[|rows| - 1], w);
    }
  }

  /** The collection with every matching row updated where it stands. */
  function UpdatedInPlace(rows: seq<Row>, w: Where, data: seq<(string, Change)>, now: int): (r: seq<Row>)
    ensures |r| == |rows|
  {
    seq(|rows|, i requires 0 <= i < |rows| =>
      if MatchWhere(rows[i], w) then ApplyUpdateData(rows[i], data, now) else rows[i])
  }

  /** Row `p` after the first `k` of the changed rows were written back under their ids. */
  ghost predicate MergedAt(
      s: seq<Row>, rows: seq<Row>, changed: seq<Row>, k: nat, p: nat, idField: string, text: TextOf)
    requires k <= |changed| && p < |rows| == |s|
  {
    && IdOf(s[p], idField, text) == IdOf(rows[p], idField, text)
    && (forall j :: 0 <= j < k && IdOf(changed[j], idField, text) == IdOf(rows[p], idField, text) ==> s[p] == changed[j])
    && ((forall j :: 0 <= j < k ==> IdOf(changed[j], idField, text) != IdOf(rows[p], idField, text)) ==> s[p] == rows[p])
  }

  ghost predicate Merged(s: seq<Row>, rows: seq<Row>, changed: seq<Row>, k: nat, idField: string, text: TextOf)
    requires k <= |changed|
  {
    |s| == |rows| && forall p :: 0 <= p < |rows| ==> MergedAt(s, rows, changed, k, p, idField, text)
  }

  lemma MergeNextAt(
      s: seq<Row>, rows: seq<Row>, changed: seq<Row>, k: nat, q: nat, p: nat, idField: string, text: TextOf)
    requires k < |changed| && UniqueIds(rows, idField, text) && UniqueIds(changed, idField, text)
    requires p < |rows| == |s| && q < |rows| && MergedAt(s, rows, changed, k, p, idField, text)
    requires IdOf(rows[q], idField, text) == IdOf(changed[k], idField, text)
    ensures MergedAt(s[q := changed[k]], rows, changed, k + 1, p, idField, text)
  {
    if p != q {
      assert IdOf(rows[p], idField, text) != IdOf(rows[q], idField, text);
    }
  }

  lemma MergeNext(
      s: seq<Row>, rows: seq<Row>, changed: seq<Row>, k: nat, q: nat, idField: string, text: TextOf)
    requires k < |changed| && UniqueIds(rows, idField, text) && UniqueIds(changed, idField, text)
    requires Merged(s, rows, changed, k, idField, text)
    requires q < |rows| && IdOf(rows[q], idField, text) == IdOf(changed[k], idField, text)
    ensures Merged(SetRow(s, changed[k], idField, text), rows, changed, k + 1, idField, text)
  {
    var i := IndexOf(s, IdOf(changed[k], idField, text), idField, text);
    assert MergedAt(s, rows, changed, k, q, idField, text);
    assert i.Some? && MergedAt(s, rows, changed, k, i.value, idField, text);
    assert IdOf(rows[i.value], idField, text) == IdOf(rows[q], idField, text);
    assert i.value == q;
    var s' := s[q := changed[k]];
    var next := k + 1;
    forall p | 0 <= p < |rows| ensures MergedAt(s', rows, changed, next, p, idField, text) {
      MergeNextAt(s, rows, changed, k, q, p, idField, text);
    }
  }

  predicate HasId(rows: seq<Row>, id: string, idField: string, text: TextOf) {
    exists q :: 0 <= q < |rows| && IdOf(rows[q], idField, text) == id
  }

  lemma {:induction false} SetAllMerges(rows: seq<Row>, changed: seq<Row>, k: nat, idField: string, text: TextOf)
    requires k <= |changed| && UniqueIds(rows, idField, text) && UniqueIds(changed, idField, text)
    requires forall j :: 0 <= j < |changed| ==> HasId(rows, IdOf(changed[j], idField, text), idField, text)
    ensures Merged(SetAll(rows, changed[..k], idField, text), rows, changed, k, idField, text)
  {
    if k == 0 {
      assert SetAll(rows, changed[..0], idField, text) == rows;
    } else {
      hide Merged, SetRow, UniqueIds, IdOf;
      SetAllMerges(rows, changed, k - 1, idField, text);
      assert HasId(rows, IdOf(changed[k - 1], idField, text), idField, text);
      var q :| 0 <= q < |rows| && IdOf(rows[q], idField, text) == IdOf(changed[k - 1], idField, text);
      MergeNext(SetAll(rows, changed[..k - 1], idField, text), rows, changed, k - 1, q, idField, text);
      assert changed[..k][..k - 1] == changed[..k - 1];
    }
  }

  /** An update that leaves ids alone changes exactly the matching rows, where they stand. */
  lemma UpdateManyIsPointwise(
      rows: seq<Row>, w: Where, data: seq<(string, Change)>, now: int, idField: string, text: TextOf)
    requires UniqueIds(rows, idField, text)
    requires forall x :: x in rows && MatchWhere(x, w) ==>
               IdOf(ApplyUpdateData(x, data, now), idField, text) == IdOf(x, idField, text)
    ensures SetAll(rows, Updated(Filter(rows, w), data, now), idField, text) == UpdatedInPlace(rows, w, data, now)
  {
    var matches := Filter(rows, w);
    var changed := Updated(matches, data, now);
    FilterMembers(rows, w);
    FilterIsDistinct(rows, w, idField, text);
    forall j | 0 <= j < |changed|
      ensures IdOf(changed[j], idField, text) == IdOf(matches[j], idField, text)
      ensures HasId(rows, IdOf(changed[j], idField, text), idField, text)
    {
      assert matches[j] in matches;
      var q :| 0 <= q < |rows| && rows[q] == matches[j];
    }
    SetAllMerges(rows, changed, |changed|, idField, text);
    assert changed[..|changed|] == changed;
    var s := SetAll(rows, changed, idField, text);
    forall p | 0 <= p < |rows| ensures s[p] == UpdatedInPlace(rows, w, data, now)[p] {
      MatchedRowIsMerged(s, rows, w, data, now, p, idField, text);
    }
  }

  lemma MatchedRowIsMerged(
      s: seq<Row>, rows: seq<Row>, w: Where, data: seq<(string, Change)>, now: int, p: nat, idField: string, text: TextOf)
    requires UniqueIds(rows, idField, text) && p < |rows|
    requires var changed := Updated(Filter(rows, w), data, now);
             && Merged(s, rows, changed, |changed|, idField, text)
             && forall j :: 0 <= j < |changed| ==>
                  IdOf(changed[j], idField, text) == IdOf(Filter(rows, w)[j], idField, text)
    ensures s[p] == UpdatedInPlace(rows, w, data, now)[p]
  {
    var matches := Filter(rows, w);
    var changed := Updated(matches, data, now);
    FilterMembers(rows, w);
    assert MergedAt(s, rows, changed, |changed|, p, idField, text);
    if MatchWhere(rows[p], w) {
      assert rows[p] in matches;
      var j :| 0 <= j < |matches| && matches[j] == rows[p];
    } else {
      forall j | 0 <= j < |matches| ensures IdOf(matches[j], idField, text) != IdOf(rows[p], idField, text) {
        assert matches[j] in matches;
      }
    }
  }

  /**
   An update that gives the one matching row an unused id does not move the row:
   the old one stays and the updated one is added beside it.
   */
  lemma ChangingAnIdKeepsTheOldRow(
      rows: seq<Row>, w: Where, x: Row, data: seq<(string, Change)>, now: int, idField: string, text: TextOf)
    requires Filter(rows, w) == [x]
    requires forall y :: y in rows ==> IdOf(y, idField, text) != IdOf(ApplyUpdateData(x, data, now), idField, text)
    ensures SetAll(rows, Updated(Filter(rows, w), data, now), idField, text) == rows + [ApplyUpdateData(x, data, now)]
  {
    var changed := Updated([x], data, now);
    assert changed == [ApplyUpdateData(x, data, now)] && changed[..0] == [];
    assert SetAll(rows, changed, idField, text) == SetRow(rows, changed[0], idField, text);
  }
}

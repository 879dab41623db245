/**
 Tip selection of education-tip.service.ts: eligibility by price change, the memory
 of the last ten tips, the weighted choice, and the bounded cache.
 */
module Tips {
  import Sets
  import StableSort

  /** The condition of a template on the absolute price change in percent. */
  datatype Condition = Always | Below(bound: real) | Above(bound: real)

  datatype Category = PriceAction | Volatility | Oracle | Stellar

  /** `TipId(Oracle, 2)` stands for the id oracle-002. */
  datatype TipId = TipId(category: Category, number: nat)

  datatype Template = Template(id: TipId, priority: nat, condition: Condition)

  const TIP_LIBRARY: seq<Template> := [
    Template(TipId(PriceAction, 1), 100, Always), Template(TipId(PriceAction, 2), 100, Always),
    Template(TipId(PriceAction, 3), 90, Always), Template(TipId(PriceAction, 4), 80, Below(0.5)),
    Template(TipId(Volatility, 1), 120, Above(2.0)), Template(TipId(Volatility, 2), 110, Above(2.0)),
    Template(TipId(Volatility, 3), 100, Below(0.5)), Template(TipId(Volatility, 4), 90, Above(1.0)),
    Template(TipId(Volatility, 5), 130, Above(5.0)),
    Template(TipId(Oracle, 1), 80, Always), Template(TipId(Oracle, 2), 75, Always),
    Template(TipId(Oracle, 3), 70, Always), Template(TipId(Oracle, 4), 85, Above(1.0)),
    Template(TipId(Stellar, 1), 70, Always), Template(TipId(Stellar, 2), 65, Always),
    Template(TipId(Stellar, 3), 60, Always), Template(TipId(Stellar, 4), 75, Always),
    Template(TipId(Stellar, 5), 70, Always)]

  const MAX_RECENT_TIPS: nat := 10

  predicate Holds(c: Condition, change: real) {
    match c
    case Always => true
    case Below(bound) => change < bound
    case Above(bound) => change > bound
  }

  function Eligible(library: seq<Template>, change: real): seq<Template> {
    if library == [] then []
    else
      var n := |library| - 1;
      Eligible(library[..n], change) + (if Holds(library[n].condition, change) then [library[n]] else [])
  }

  function Fresh(templates: seq<Template>, recent: seq<TipId>): seq<Template> {
    if templates == [] then []
    else
      var n := |templates| - 1;
      Fresh(templates[..n], recent) + (if templates[n].id in recent then [] else [templates[n]])
  }

  function ToConsider(library: seq<Template>, change: real, recent: seq<TipId>): seq<Template> {
    var eligible := Eligible(library, change);
    var unseen := Fresh(eligible, recent);
    if |unseen| > 0 then unseen else eligible
  }

  function Weight(t: Template): nat {
    if t.priority == 0 then 50 else t.priority
  }

  /** The weights of the first `n` templates. */
  function Cumulative(tips: seq<Template>, n: nat): nat
    requires n <= |tips|
  {
    if n == 0 then 0 else Cumulative(tips, n - 1) + Weight(tips[n - 1])
  }

  /** `draw` is the random number in [0, total). The loop picks the tip whose cumulative interval holds it. */
  method WeightedRandomSelection(tips: seq<Template>, draw: real) returns (i: nat)
    requires |tips| > 0 && 0.0 <= draw < Cumulative(tips, |tips|) as real
    ensures i < |tips| && draw <= Cumulative(tips, i + 1) as real
    ensures i > 0 ==> Cumulative(tips, i) as real < draw
  {
    var random := draw;
    i := 0;
    while i < |tips|
      invariant 0 <= i <= |tips|
      invariant random == draw - Cumulative(tips, i) as real
      invariant i > 0 ==> random > 0.0
    {
      random := random - Weight(tips[i]) as real;
      if random <= 0.0 { return; }
      i := i + 1;
    }
    // The sum of all weights exceeds the draw, so the loop has returned.
    assert false;
  }

  /** Exactly one tip answers to a draw. */
  lemma SelectionIsUnique(tips: seq<Template>, draw: real, i: nat, j: nat)
    requires i < |tips| && j < |tips|
    requires draw <= Cumulative(tips, i + 1) as real && (i > 0 ==> Cumulative(tips, i) as real < draw)
    requires draw <= Cumulative(tips, j + 1) as real && (j > 0 ==> Cumulative(tips, j) as real < draw)
    ensures i == j
  {
    if i < j {
      CumulativeGrows(tips, i + 1, j);
    } else if j < i {
      CumulativeGrows(tips, j + 1, i);
    }
  }

  lemma {:induction false} CumulativeGrows(tips: seq<Template>, m: nat, n: nat)
    requires m <= n <= |tips|
    ensures Cumulative(tips, m) <= Cumulative(tips, n)
  {
    if m < n {
      CumulativeGrows(tips, m, n - 1);
    }
  }

  /** The weight a template is drawn with: its priority, or 50 when it has none. */
  predicate DrawnWith(t: Template, weight: nat) {
    (t.priority > 0 ==> weight == t.priority) && (t.priority == 0 ==> weight == 50)
  }

  /**
   The draws that answer with a tip are an interval as long as its weight, and no
   interval is empty: every tip can be drawn, as often as its weight says.
   */
  lemma ShareOfATip(tips: seq<Template>, i: nat, weight: nat)
    requires i < |tips| && DrawnWith(tips[i], weight)
    ensures Cumulative(tips, 0) == 0 && Cumulative(tips, i + 1) - Cumulative(tips, i) == weight > 0
    ensures Cumulative(tips, i + 1) <= Cumulative(tips, |tips|)
  {
    CumulativeGrows(tips, i + 1, |tips|);
  }

  lemma {:induction false} EligibleIff(library: seq<Template>, change: real, t: Template)
    ensures t in Eligible(library, change) <==> t in library && Holds(t.condition, change)
  {
    if library != [] {
      EligibleIff(library[..|library| - 1], change, t);
    }
  }

  lemma {:induction false} FreshIff(templates: seq<Template>, recent: seq<TipId>, t: Template)
    ensures t in Fresh(templates, recent) <==> t in templates && t.id !in recent
  {
    if templates != [] {
      FreshIff(templates[..|templates| - 1], recent, t);
    }
  }

  /**
   The tips to choose from are those of the library whose condition holds and that
   were not shown lately, or all whose condition holds when they were all shown lately.
   */
  lemma ToConsiderIff(library: seq<Template>, change: real, recent: seq<TipId>, t: Template)
    ensures t in ToConsider(library, change, recent) <==>
              && t in library && Holds(t.condition, change)
              && (t.id !in recent || forall u :: u in library && Holds(u.condition, change) ==> u.id in recent)
  {
    forall u ensures u in Eligible(library, change) <==> u in library && Holds(u.condition, change) {
      EligibleIff(library, change, u);
    }
    forall u
      ensures u in Fresh(Eligible(library, change), recent) <==> u in Eligible(library, change) && u.id !in recent
    {
      FreshIff(Eligible(library, change), recent, u);
    }
    var unseen := Fresh(Eligible(library, change), recent);
    if unseen != [] { assert unseen[0] in unseen; }
  }

  function Remember(recent: seq<TipId>, id: TipId): seq<TipId> {
    var next := recent + [id];
    if |next| > MAX_RECENT_TIPS then next[1..] else next
  }

  ghost predicate Shown(library: seq<Template>, change: real, before: seq<Template>, t: Template) {
    t in ToConsider(library, change, Recent(before))
  }

  /** `shown` is a possible history of generated tips under the given price changes. */
  ghost predicate History(library: seq<Template>, changes: seq<real>, shown: seq<Template>)
    requires |changes| == |shown|
  {
    forall j :: 0 <= j < |shown| ==> Shown(library, changes[j], shown[..j], shown[j])
  }

  function Recent(shown: seq<Template>): seq<TipId> {
    if shown == [] then [] else Remember(Recent(shown[..|shown| - 1]), shown[|shown| - 1].id)
  }

  /** What is remembered are the ids of the last ten tips, in order. */
  lemma {:induction false} RecentIsTheLastTen(shown: seq<Template>)
    ensures var r, n := Recent(shown), |shown|;
            && |r| == (if n < MAX_RECENT_TIPS then n else MAX_RECENT_TIPS)
            && forall k :: 0 <= k < |r| ==> r[k] == shown[n - |r| + k].id
  {
    if shown != [] {
      RecentIsTheLastTen(shown[..|shown| - 1]);
    }
  }

  function Ids(templates: seq<Template>): set<TipId> {
    set k | 0 <= k < |templates| :: templates[k].id
  }

  function AlwaysIds(templates: seq<Template>): set<TipId> {
    set k | 0 <= k < |templates| && templates[k].condition.Always? :: templates[k].id
  }

  lemma {:induction false} EligibleHasAlways(library: seq<Template>, change: real)
    ensures AlwaysIds(library) <= Ids(Eligible(library, change))
  {
    if library != [] {
      var n := |library| - 1;
      EligibleHasAlways(library[..n], change);
      var before, now := Eligible(library[..n], change), Eligible(library, change);
      forall id | id in AlwaysIds(library) ensures id in Ids(now) {
        var k :| 0 <= k < |library| && library[k].condition.Always? && library[k].id == id;
        if k < n {
          assert library[..n][k].id == id && id in AlwaysIds(library[..n]);
          var j :| 0 <= j < |before| && before[j].id == id;
          assert now[j].id == id;
        } else {
          assert now[|before|].id == id;
        }
      }
    }
  }

  lemma {:induction false} FreshIsTheRest(templates: seq<Template>, recent: seq<TipId>)
    ensures forall t :: t in Fresh(templates, recent) <==> t in templates && t.id !in recent
  {
    if templates != [] {
      FreshIsTheRest(templates[..|templates| - 1], recent);
    }
  }

  lemma FewerThan(a: set<TipId>, recent: seq<TipId>)
    requires |a| > |recent|
    ensures exists id :: id in a && id !in recent
  {
    var r := set id | id in recent;
    SeqSetSize(recent);
    if forall id :: id in a ==> id in recent {
      assert a <= r;
      Sets.SubsetSize(a, r);
    }
  }

  lemma {:induction false} SeqSetSize(s: seq<TipId>)
    ensures |set id | id in s| <= |s|
  {
    if s != [] {
      var n := |s| - 1;
      SeqSetSize(s[..n]);
      assert (set id | id in s) == (set id | id in s[..n]) + {s[n]};
    }
  }

  /** While more templates are always eligible than are remembered, a remembered tip is never considered. */
  lemma ConsideredIsFresh(library: seq<Template>, change: real, recent: seq<TipId>, t: Template)
    requires |AlwaysIds(library)| > |recent| && t in ToConsider(library, change, recent)
    ensures t.id !in recent
  {
    var eligible := Eligible(library, change);
    EligibleHasAlways(library, change);
    FewerThan(AlwaysIds(library), recent);
    var id :| id in AlwaysIds(library) && id !in recent;
    var k :| 0 <= k < |eligible| && eligible[k].id == id;
    FreshIsTheRest(eligible, recent);
    assert eligible[k] in Fresh(eligible, recent);
  }

  /** Of any eleven tips generated in a row no two are the same. */
  lemma ElevenInARowDiffer(library: seq<Template>, changes: seq<real>, shown: seq<Template>, i: nat, j: nat)
    requires |AlwaysIds(library)| > MAX_RECENT_TIPS
    requires |changes| == |shown| && History(library, changes, shown)
    requires i < j < |shown| && j - i <= MAX_RECENT_TIPS
    ensures shown[i].id != shown[j].id
  {
    LastDiffersFromRecent(library, changes[j], shown[..j], shown[j], i);
  }

  lemma LastDiffersFromRecent(library: seq<Template>, change: real, before: seq<Template>, t: Template, i: nat)
    requires |AlwaysIds(library)| > MAX_RECENT_TIPS
    requires Shown(library, change, before, t)
    requires i < |before| && |before| - i <= MAX_RECENT_TIPS
    ensures before[i].id != t.id
  {
    var recent := Recent(before);
    RecentIsTheLastTen(before);
    var k := i - (|before| - |recent|);
    assert recent[k] == before[|before| - |recent| + k].id;
    assert before[i].id in recent;
    ConsideredIsFresh(library, change, recent, t);
  }

  /** The templates of the library that are always eligible, by position. */
  lemma AlwaysAt(k: nat)
    requires k < |TIP_LIBRARY|
    ensures TIP_LIBRARY[k].condition.Always? <==> k in AlwaysPositions()
    ensures TIP_LIBRARY[k].id == (if k < 4 then TipId(PriceAction, k + 1) else if k < 9 then TipId(Volatility, k - 3)
                                  else if k < 13 then TipId(Oracle, k - 8) else TipId(Stellar, k - 12))
  {
  }

  function PositionOf(id: TipId): int {
    match id.category
    case PriceAction => id.number - 1
    case Volatility => id.number + 3
    case Oracle => id.number + 8
    case Stellar => id.number + 12
  }

  function AlwaysPositions(): set<int> {
    {0, 1, 2, 9, 10, 11, 13, 14, 15, 16, 17}
  }

  ghost predicate Numbered(library: seq<Template>) {
    && (forall k :: 0 <= k < |library| ==>
          (library[k].condition.Always? <==> k in AlwaysPositions()) && PositionOf(library[k].id) == k)
    && (forall k :: k in AlwaysPositions() ==> 0 <= k < |library|)
  }

  lemma LibraryIsNumbered()
    ensures Numbered(TIP_LIBRARY)
  {
    assert |TIP_LIBRARY| == 18;
    forall k: int | 0 <= k < |TIP_LIBRARY|
      ensures TIP_LIBRARY[k].condition.Always? <==> k in AlwaysPositions()
      ensures PositionOf(TIP_LIBRARY[k].id) == k
    {
      AlwaysAt(k);
    }
  }

  lemma ElevenPositions()
    ensures |AlwaysPositions()| == 11
  {
  }

  /** The shipped library has eleven templates that are always eligible, one more than are remembered. */
  lemma LibraryHasEnough()
    ensures |AlwaysIds(TIP_LIBRARY)| == MAX_RECENT_TIPS + 1
  {
    LibraryIsNumbered();
    CountByPosition(TIP_LIBRARY);
  }

  lemma CountByPosition(library: seq<Template>)
    requires Numbered(library)
    ensures |AlwaysIds(library)| == MAX_RECENT_TIPS + 1
  {
    var ids := AlwaysIds(library);
    forall k | k in AlwaysPositions() ensures library[k].id in ids {
      assert library[k].condition.Always?;
    }
    SameSize(library, ids, AlwaysPositions());
    ElevenPositions();
  }

  lemma {:induction false} SameSize(library: seq<Template>, ids: set<TipId>, positions: set<int>)
    requires forall k :: k in positions ==> 0 <= k < |library| && library[k].id in ids && PositionOf(library[k].id) == k
    requires forall id :: id in ids ==> PositionOf(id) in positions && library[PositionOf(id)].id == id
    ensures |ids| == |positions|
    decreases ids
  {
    if ids == {} {
      assert forall k: int :: k in positions ==> library[k].id in ids;
      assert forall k: int :: k !in positions;
      assert positions == {};
    } else {
      var id :| id in ids;
      SameSize(library, ids - {id}, positions - {PositionOf(id)});
    }
  }

  // ---------------------------------------------------------------------------
  // The cache
  // ---------------------------------------------------------------------------

  const MAX_CACHED: nat := 1000

  const PRUNED: nat := 200

  datatype Cached = Cached(round: string, timestamp: int)

  predicate UniqueRounds(cache: seq<Cached>) {
    forall i, j :: 0 <= i < j < |cache| ==> cache[i].round != cache[j].round
  }

  function Older(): (Cached, Cached) -> bool {
    (a: Cached, b: Cached) => a.timestamp <= b.timestamp
  }

  function Place(cache: seq<Cached>, e: Cached): seq<Cached> {
    if cache == [] then [e]
    else if cache[0].round == e.round then [e] + cache[1..]
    else [cache[0]] + Place(cache[1..], e)
  }

  function DropRounds(cache: seq<Cached>, rounds: set<string>): seq<Cached> {
    if cache == [] then []
    else
      var n := |cache| - 1;
      DropRounds(cache[..n], rounds) + (if cache[n].round in rounds then [] else [cache[n]])
  }

  function RoundsOf(cache: seq<Cached>): set<string> {
    set i | 0 <= i < |cache| :: cache[i].round
  }

  class TipCache {
    var entries: seq<Cached>

    constructor ()
      ensures entries == [] && Valid()
    {
      entries := [];
    }

    ghost predicate Valid()
      reads this
    {
      UniqueRounds(entries) && |entries| <= MAX_CACHED
    }

    /** Never more than 1000 entries; what a pruning removes is not newer than anything it keeps. */
    method CacheTip(round: string, now: int)
      requires Valid()
      modifies this
      ensures Valid()
      ensures var placed := Place(old(entries), Cached(round, now));
              if |placed| <= MAX_CACHED then entries == placed
              else
                && |entries| == |placed| - PRUNED
                && (forall x :: x in entries ==> x in placed)
                && (forall x, y :: x in placed && x !in entries && y in entries ==> x.timestamp <= y.timestamp)
    {
      PlaceKeepsUnique(entries, Cached(round, now));
      entries := Place(entries, Cached(round, now));
      if |entries| > MAX_CACHED {
        var sortedEntries := StableSort.Sort(entries, Older());
        var toRemove := sortedEntries[..PRUNED];
        PruneOldest(entries);
        entries := DropRounds(entries, RoundsOf(toRemove));
      }
    }
  }

  lemma {:induction false} PlaceKeepsUnique(cache: seq<Cached>, e: Cached)
    requires UniqueRounds(cache)
    ensures UniqueRounds(Place(cache, e)) && |cache| <= |Place(cache, e)| <= |cache| + 1
    ensures forall x :: x in Place(cache, e) ==> x == e || x in cache
    ensures forall x :: x in Place(cache, e) ==> x.round == e.round || x in cache
  {
    if cache != [] {
      PlaceKeepsUnique(cache[1..], e);
      assert cache == [cache[0]] + cache[1..];
      assert forall x :: x in cache[1..] ==> x.round != cache[0].round;
    }
  }

  lemma {:induction false} DropMembers(cache: seq<Cached>, rounds: set<string>)
    ensures forall x :: x in DropRounds(cache, rounds) <==> x in cache && x.round !in rounds
  {
    if cache != [] {
      DropMembers(cache[..|cache| - 1], rounds);
    }
  }

  lemma {:induction false} DropKeepsUnique(cache: seq<Cached>, rounds: set<string>)
    requires UniqueRounds(cache)
    ensures UniqueRounds(DropRounds(cache, rounds))
  {
    if cache != [] {
      var n := |cache| - 1;
      DropKeepsUnique(cache[..n], rounds);
      DropMembers(cache[..n], rounds);
      assert forall x :: x in cache[..n] ==> x.round != cache[n].round;
    }
  }

  lemma RoundsLast(init: seq<Cached>, last: Cached)
    requires UniqueRounds(init + [last])
    ensures RoundsOf(init + [last]) == RoundsOf(init) + {last.round} && last.round !in RoundsOf(init)
    ensures UniqueRounds(init)
  {
    var all := init + [last];
    assert all[|init|] == last;
    forall i | 0 <= i < |init| ensures init[i].round != last.round && init[i].round in RoundsOf(all) {
      assert all[i] == init[i];
    }
    forall r | r in RoundsOf(all) ensures r in RoundsOf(init) + {last.round} {
      var i :| 0 <= i < |all| && all[i].round == r;
      if i < |init| { assert init[i].round == r; }
    }
    assert last.round in RoundsOf(all);
    forall i, j | 0 <= i < j < |init| ensures init[i].round != init[j].round {
      assert all[i] == init[i] && all[j] == init[j];
    }
  }

  lemma {:induction false} DropSize(cache: seq<Cached>, rounds: set<string>)
    requires UniqueRounds(cache) && rounds <= RoundsOf(cache)
    ensures |DropRounds(cache, rounds)| == |cache| - |rounds|
  {
    if cache == [] {
      assert rounds == {};
    } else {
      var init, last := cache[..|cache| - 1], cache[|cache| - 1];
      assert cache == init + [last];
      RoundsLast(init, last);
      DropSize(init, rounds - {last.round});
      DropAbsent(init, rounds, last.round);
      assert |rounds| == |rounds - {last.round}| + if last.round in rounds then 1 else 0;
    }
  }

  lemma {:induction false} DropAbsent(cache: seq<Cached>, rounds: set<string>, round: string)
    requires forall i :: 0 <= i < |cache| ==> cache[i].round != round
    ensures DropRounds(cache, rounds - {round}) == DropRounds(cache, rounds)
  {
    if cache != [] {
      DropAbsent(cache[..|cache| - 1], rounds, round);
    }
  }

  lemma {:induction false} UniqueSize(cache: seq<Cached>)
    requires UniqueRounds(cache)
    ensures |RoundsOf(cache)| == |cache|
  {
    if cache != [] {
      var n := |cache| - 1;
      UniqueSize(cache[..n]);
      assert RoundsOf(cache) == RoundsOf(cache[..n]) + {cache[n].round};
    }
  }

  /** Sorting keeps rounds unique. */
  lemma SortKeepsUnique(cache: seq<Cached>)
    requires UniqueRounds(cache)
    ensures UniqueRounds(StableSort.Sort(cache, Older()))
  {
    var sorted := StableSort.Sort(cache, Older());
    StableSort.SameElements(sorted, cache);
    forall i, j | 0 <= i < j < |sorted| ensures sorted[i].round != sorted[j].round {
      if sorted[i].round == sorted[j].round {
        assert sorted[i] in cache && sorted[j] in cache;
        TwiceInSorted(cache, sorted, i, j);
      }
    }
  }

  lemma TwiceInSorted(cache: seq<Cached>, sorted: seq<Cached>, i: nat, j: nat)
    requires multiset(sorted) == multiset(cache) && i < j < |sorted| && sorted[i] == sorted[j]
    ensures !UniqueRounds(cache)
  {
    var x := sorted[i];
    assert sorted == sorted[..i] + [x] + sorted[i + 1..j] + [x] + sorted[j + 1..];
    assert multiset(sorted)[x] >= 2;
    UniqueOnce(cache, x);
  }

  lemma {:induction false} UniqueOnce(cache: seq<Cached>, x: Cached)
    ensures UniqueRounds(cache) ==> multiset(cache)[x] <= 1
  {
    if cache != [] && UniqueRounds(cache) {
      var n := |cache| - 1;
      UniqueOnce(cache[..n], x);
      assert cache == cache[..n] + [cache[n]];
      if x == cache[n] {
        assert x !in cache[..n];
        assert multiset(cache[..n])[x] == 0;
      }
    }
  }

  lemma PruneOldest(cache: seq<Cached>)
    requires UniqueRounds(cache) && |cache| == MAX_CACHED + 1
    ensures var kept := DropRounds(cache, RoundsOf(StableSort.Sort(cache, Older())[..PRUNED]));
            && |kept| == |cache| - PRUNED && UniqueRounds(kept)
            && (forall x :: x in kept ==> x in cache)
            && (forall x, y :: x in cache && x !in kept && y in kept ==> x.timestamp <= y.timestamp)
  {
    var sorted := StableSort.Sort(cache, Older());
    var gone := RoundsOf(sorted[..PRUNED]);
    var kept := DropRounds(cache, gone);
    StableSort.SameElements(sorted, cache);
    StableSort.SortSorted(cache, Older());
    SortKeepsUnique(cache);
    UniqueSize(sorted[..PRUNED]);
    RoundsWithin(sorted, cache, PRUNED);
    DropSize(cache, gone);
    DropKeepsUnique(cache, gone);
    DropMembers(cache, gone);
    forall x, y | x in cache && x !in kept && y in kept ensures x.timestamp <= y.timestamp {
      OldestFirst(sorted, x, y, PRUNED);
    }
  }

  lemma RoundsWithin(sorted: seq<Cached>, cache: seq<Cached>, n: nat)
    requires n <= |sorted| && forall x :: x in sorted <==> x in cache
    ensures RoundsOf(sorted[..n]) <= RoundsOf(cache)
  {
    forall r | r in RoundsOf(sorted[..n]) ensures r in RoundsOf(cache) {
      var i :| 0 <= i < n && sorted[..n][i].round == r;
      assert sorted[i] in cache;
      var j :| 0 <= j < |cache| && cache[j] == sorted[i];
    }
  }

  lemma OldestFirst(sorted: seq<Cached>, x: Cached, y: Cached, n: nat)
    requires n <= |sorted| && UniqueRounds(sorted) && StableSort.Sorted(sorted, Older())
    requires x in sorted && y in sorted
    requires x.round in RoundsOf(sorted[..n]) && y.round !in RoundsOf(sorted[..n])
    ensures x.timestamp <= y.timestamp
  {
    var i :| 0 <= i < |sorted| && sorted[i] == x;
    var j :| 0 <= j < |sorted| && sorted[j] == y;
    var k :| 0 <= k < n && sorted[..n][k].round == x.round;
    assert sorted[k].round == sorted[i].round;
    assert i == k;
    forall m | 0 <= m < n ensures sorted[m].round in RoundsOf(sorted[..n]) {
      assert sorted[..n][m].round == sorted[m].round;
    }
    assert j >= n;
    assert Older()(sorted[i], sorted[j]);
  }
}

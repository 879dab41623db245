/**
 The versioned namespace cache of src/lib/redis.ts. A get and a set first read the
 namespace's version and then use a key that contains it; an invalidation
 increments the version. Calls of any number of processes interleave between
 their two steps, and entries may expire or be evicted at any moment.
 */
module VersionedCache {
  import opened Wrappers

  datatype Key = Key(namespace: string, version: nat, rawKey: string)

  /** `at` is the position in the run of the version read of the set that wrote the entry. */
  datatype Entry = Entry(value: string, at: nat)

  type Versions = map<string, nat>

  type Entries = map<Key, Entry>

  function VersionOf(versions: Versions, namespace: string): nat {
    if namespace in versions then versions[namespace] else 0
  }

  /** A version read that fails is answered with version 0. */
  function NamespacedKey(versions: Versions, namespace: string, rawKey: string, up: bool): Key {
    Key(namespace, if up then VersionOf(versions, namespace) else 0, rawKey)
  }

  function Increment(versions: Versions, namespace: string, up: bool): Versions {
    if up then versions[namespace := VersionOf(versions, namespace) + 1] else versions
  }

  function Lookup(entries: Entries, key: Key, up: bool): Option<Entry> {
    if up && key in entries then Some(entries[key]) else None
  }

  function Store(entries: Entries, key: Key, entry: Entry, up: bool): Entries {
    if up then entries[key := entry] else entries
  }

  datatype Metrics = Metrics(hits: nat, misses: nat, sets: nat, invalidations: nat, errors: nat)

  /** What becomes of a write: an unacknowledged one counts as an error, but took effect. */
  datatype Write = Acknowledged | Unacknowledged | NoEffect

  class Cache {
    var versions: Versions
    var entries: Entries
    var metrics: Metrics

    constructor ()
      ensures versions == map[] && entries == map[] && metrics == Metrics(0, 0, 0, 0, 0)
    {
      versions, entries, metrics := map[], map[], Metrics(0, 0, 0, 0, 0);
    }

    method MakeNamespacedKey(namespace: string, rawKey: string, up: bool) returns (key: Key)
      modifies this`metrics
      ensures key == NamespacedKey(versions, namespace, rawKey, up)
      ensures metrics == if up then old(metrics) else old(metrics).(errors := old(metrics.errors) + 1)
    {
      var version := 0;
      if up {
        if namespace in versions { version := versions[namespace]; }
      } else {
        metrics := metrics.(errors := metrics.errors + 1);
      }
      key := Key(namespace, version, rawKey);
    }

    method InvalidateNamespace(namespace: string, write: Write)
      modifies this`metrics, this`versions
      ensures versions == Increment(old(versions), namespace, !write.NoEffect?)
      ensures metrics == if write.Acknowledged? then old(metrics).(invalidations := old(metrics.invalidations) + 1)
                         else old(metrics).(errors := old(metrics.errors) + 1)
    {
      if !write.NoEffect? {
        if namespace !in versions { versions := versions[namespace := 0]; }
        versions := versions[namespace := versions[namespace] + 1];
      }
      if write.Acknowledged? {
        metrics := metrics.(invalidations := metrics.invalidations + 1);
      } else {
        metrics := metrics.(errors := metrics.errors + 1);
      }
    }

    method Get(key: Key, up: bool) returns (entry: Option<Entry>)
      modifies this`metrics
      ensures entry == Lookup(entries, key, up)
      ensures metrics == if entry.Some? then old(metrics).(hits := old(metrics.hits) + 1)
                         else if up then old(metrics).(misses := old(metrics.misses) + 1)
                         else old(metrics).(misses := old(metrics.misses) + 1, errors := old(metrics.errors) + 1)
    {
      if !up {
        metrics := metrics.(errors := metrics.errors + 1, misses := metrics.misses + 1);
        return None;
      }
      if key !in entries {
        metrics := metrics.(misses := metrics.misses + 1);
        return None;
      }
      metrics := metrics.(hits := metrics.hits + 1);
      entry := Some(entries[key]);
    }

    method Set(key: Key, entry: Entry, write: Write)
      modifies this`metrics, this`entries
      ensures entries == Store(old(entries), key, entry, !write.NoEffect?)
      ensures metrics == if write.Acknowledged? then old(metrics).(sets := old(metrics.sets) + 1)
                         else old(metrics).(errors := old(metrics.errors) + 1)
    {
      if !write.NoEffect? {
        entries := entries[key := entry];
      }
      if write.Acknowledged? {
        metrics := metrics.(sets := metrics.sets + 1);
      } else {
        metrics := metrics.(errors := metrics.errors + 1);
      }
    }
  }

  // ---------------------------------------------------------------------------
  // Interleaved runs
  // ---------------------------------------------------------------------------

  /**
   One step of one call; `up` says whether a read gets its reply, and whether a write
   takes effect, with or without its reply.
   */
  datatype Event =
    | GetBegin(id: nat, namespace: string, rawKey: string, up: bool)
    | GetEnd(id: nat, up: bool)
    | SetBegin(id: nat, namespace: string, rawKey: string, value: string, up: bool)
    | SetEnd(id: nat, up: bool)
    | Invalidate(namespace: string, up: bool)
    | Drop(key: Key)

  /** A call between its two steps: its key and the position of its version read. */
  datatype Call = Reading(key: Key, at: nat) | Writing(key: Key, at: nat, value: string)

  datatype State = State(versions: Versions, entries: Entries, calls: map<nat, Call>)

  function Next(s: State, e: Event, at: nat): State {
    match e
    case GetBegin(id, namespace, rawKey, up) =>
      s.(calls := s.calls[id := Reading(NamespacedKey(s.versions, namespace, rawKey, up), at)])
    case GetEnd(id, _) => s.(calls := s.calls - {id})
    case SetBegin(id, namespace, rawKey, value, up) =>
      s.(calls := s.calls[id := Writing(NamespacedKey(s.versions, namespace, rawKey, up), at, value)])
    case SetEnd(id, up) =>
      if id in s.calls && s.calls[id].Writing? then
        var c := s.calls[id];
        s.(entries := Store(s.entries, c.key, Entry(c.value, c.at), up), calls := s.calls - {id})
      else s
    case Invalidate(namespace, up) => s.(versions := Increment(s.versions, namespace, up))
    case Drop(key) => s.(entries := s.entries - {key})
  }

  function Run(events: seq<Event>): State {
    if events == [] then State(map[], map[], map[])
    else Next(Run(events[..|events| - 1]), events[|events| - 1], |events| - 1)
  }

  /** What the second step of the get `id` returns at the end of a run. */
  function Answer(s: State, id: nat, up: bool): Option<Entry> {
    if id in s.calls && s.calls[id].Reading? then Lookup(s.entries, s.calls[id].key, up) else None
  }

  // ---------------------------------------------------------------------------
  // Freshness
  // ---------------------------------------------------------------------------

  predicate Invalidates(e: Event, namespace: string) {
    e.Invalidate? && e.namespace == namespace && e.up
  }

  /** The number of invalidations of the namespace among the first `n` events. */
  function Invalidations(events: seq<Event>, namespace: string, n: nat): nat
    requires n <= |events|
  {
    if n == 0 then 0
    else Invalidations(events, namespace, n - 1) + if Invalidates(events[n - 1], namespace) then 1 else 0
  }

  lemma {:induction false} InvalidationsGrow(events: seq<Event>, namespace: string, i: nat, j: nat)
    requires i <= j <= |events|
    ensures Invalidations(events, namespace, i) <= Invalidations(events, namespace, j)
    ensures Invalidations(events, namespace, i) == Invalidations(events, namespace, j) <==>
              forall k :: i <= k < j ==> !Invalidates(events[k], namespace)
  {
    if i < j {
      InvalidationsGrow(events, namespace, i, j - 1);
    }
  }

  lemma InvalidationsPrefix(events: seq<Event>, more: seq<Event>, namespace: string, n: nat)
    requires n <= |events|
    ensures Invalidations(events + more, namespace, n) == Invalidations(events, namespace, n)
  {
    if n > 0 {
      InvalidationsPrefix(events, more, namespace, n - 1);
    }
  }

  /** A key made at position `at` carries the version of that moment, or 0 if the read failed. */
  ghost predicate MadeAt(events: seq<Event>, key: Key, at: nat) {
    && at < |events|
    && (events[at].GetBegin? || events[at].SetBegin?)
    && events[at].namespace == key.namespace && events[at].rawKey == key.rawKey
    && key.version == (if events[at].up then Invalidations(events, key.namespace, at) else 0)
  }

  ghost predicate WrittenAt(events: seq<Event>, key: Key, at: nat, value: string) {
    MadeAt(events, key, at) && events[at].SetBegin? && events[at].value == value
  }

  ghost predicate CallInv(events: seq<Event>, c: Call) {
    match c
    case Reading(key, at) => MadeAt(events, key, at) && events[at].GetBegin?
    case Writing(key, at, value) => WrittenAt(events, key, at, value)
  }

  ghost predicate Inv(events: seq<Event>, s: State) {
    && (forall ns :: VersionOf(s.versions, ns) == Invalidations(events, ns, |events|))
    && (forall id :: id in s.calls ==> CallInv(events, s.calls[id]))
    && (forall key :: key in s.entries ==> WrittenAt(events, key, s.entries[key].at, s.entries[key].value))
  }

  lemma MadeAtStays(events: seq<Event>, e: Event, key: Key, at: nat)
    requires MadeAt(events, key, at)
    ensures MadeAt(events + [e], key, at)
  {
    InvalidationsPrefix(events, [e], key.namespace, at);
  }

  lemma VersionsCount(events: seq<Event>, e: Event, s: State, ns: string)
    requires Inv(events, s)
    ensures VersionOf(Next(s, e, |events|).versions, ns) == Invalidations(events + [e], ns, |events| + 1)
  {
    InvalidationsPrefix(events, [e], ns, |events|);
  }

  lemma StepKeepsInv(events: seq<Event>, e: Event, s: State)
    requires Inv(events, s)
    ensures Inv(events + [e], Next(s, e, |events|))
  {
    var s' := Next(s, e, |events|);
    forall ns ensures VersionOf(s'.versions, ns) == Invalidations(events + [e], ns, |events| + 1) {
      VersionsCount(events, e, s, ns);
    }
    forall id | id in s'.calls ensures CallInv(events + [e], s'.calls[id]) {
      if id in s.calls && s'.calls[id] == s.calls[id] {
        MadeAtStays(events, e, s.calls[id].key, s.calls[id].at);
      } else {
        InvalidationsPrefix(events, [e], s'.calls[id].key.namespace, |events|);
      }
    }
    forall key | key in s'.entries
      ensures WrittenAt(events + [e], key, s'.entries[key].at, s'.entries[key].value)
    {
      if key in s.entries && s'.entries[key] == s.entries[key] {
        MadeAtStays(events, e, key, s.entries[key].at);
      } else {
        assert CallInv(events, s.calls[e.id]);
        MadeAtStays(events, e, key, s.calls[e.id].at);
      }
    }
  }

  lemma {:induction false} RunKeepsInv(events: seq<Event>)
    ensures Inv(events, Run(events))
  {
    if events != [] {
      var n := |events| - 1;
      RunKeepsInv(events[..n]);
      StepKeepsInv(events[..n], events[n], Run(events[..n]));
      assert events[..n] + [events[n]] == events;
    }
  }

  /** The get `id` is between its steps, having read its version at `at` with success. */
  predicate ReadyToGet(events: seq<Event>, id: nat, namespace: string, rawKey: string, at: nat) {
    && id in Run(events).calls && Run(events).calls[id].Reading? && Run(events).calls[id].at == at
    && at < |events| && events[at] == GetBegin(id, namespace, rawKey, true)
  }

  /** The get `id` is between its steps and its second step would find a value. */
  predicate Hits(events: seq<Event>, id: nat) {
    Answer(Run(events), id, true).Some?
  }

  /** The value comes from a set of the same key that began after the last invalidation ahead of the get. */
  predicate Fresh(events: seq<Event>, call: Call, hit: Entry) {
    && call.at <= |events| && hit.at < |events| && events[hit.at].SetBegin? && events[hit.at].value == hit.value
    && events[hit.at].namespace == call.key.namespace && events[hit.at].rawKey == call.key.rawKey
    && forall k :: hit.at <= k < call.at ==> !Invalidates(events[k], call.key.namespace)
  }

  /** A hit can be stale only if the version read failed after the namespace had been invalidated. */
  lemma FreshUnlessReadFailed(events: seq<Event>, id: nat)
    requires Hits(events, id)
    ensures var call := Run(events).calls[id];
            && MadeAt(events, call.key, call.at) && events[call.at].GetBegin?
            && (events[call.at].up || Invalidations(events, call.key.namespace, call.at) == 0 ==>
                  Fresh(events, call, Answer(Run(events), id, true).value))
  {
    RunKeepsInv(events);
    var s := Run(events);
    var call, hit := s.calls[id], Answer(s, id, true).value;
    assert CallInv(events, call);
    assert WrittenAt(events, call.key, hit.at, hit.value);
    if hit.at < call.at {
      InvalidationsGrow(events, call.key.namespace, hit.at, call.at);
      InvalidationsGrow(events, call.key.namespace, 0, hit.at);
    }
  }

  /**
   In every interleaving, a get whose version read succeeded returns only a value
   set under its own namespace and key by a call that read its version after the
   last invalidation preceding the getter's version read.
   */
  lemma HitIsFresh(events: seq<Event>, id: nat, namespace: string, rawKey: string, at: nat)
    requires ReadyToGet(events, id, namespace, rawKey, at) && Answer(Run(events), id, true).Some?
    ensures var hit := Answer(Run(events), id, true).value;
            && hit.at < |events| && events[hit.at].SetBegin? && events[hit.at].value == hit.value
            && events[hit.at].namespace == namespace && events[hit.at].rawKey == rawKey
            && forall k :: hit.at <= k < at ==> !Invalidates(events[k], namespace)
  {
    FreshUnlessReadFailed(events, id);
  }

  /** With no set begun since an invalidation, every later get of the key whose version read succeeds misses. */
  lemma EveryGetMissesAfterInvalidation(
      events: seq<Event>, id: nat, namespace: string, rawKey: string, at: nat, inv: nat)
    requires ReadyToGet(events, id, namespace, rawKey, at)
    requires inv < at && Invalidates(events[inv], namespace)
    requires forall k :: inv < k < |events| && events[k].SetBegin? ==>
               events[k].namespace != namespace || events[k].rawKey != rawKey
    ensures Answer(Run(events), id, true).None?
  {
    if Answer(Run(events), id, true).Some? {
      HitIsFresh(events, id, namespace, rawKey, at);
      assert false;
    }
  }

  /**
   The success of the version read is needed: a getter whose read fails looks under
   version 0 and can return a value that an invalidation had removed.
   */
  lemma FailedVersionReadServesStale(ns: string, raw: string, value: string)
    ensures var events := [SetBegin(0, ns, raw, value, true), SetEnd(0, true), Invalidate(ns, true),
                           GetBegin(1, ns, raw, false)];
            Answer(Run(events), 1, true) == Some(Entry(value, 0))
  {
    var events := [SetBegin(0, ns, raw, value, true), SetEnd(0, true), Invalidate(ns, true),
                   GetBegin(1, ns, raw, false)];
    var key := Key(ns, 0, raw);
    assert events[..3][..2] == events[..2] && events[..2][..1] == events[..1] && events[..1][..0] == [];
    assert Run(events[..1]) == State(map[], map[], map[0 := Writing(key, 0, value)]);
    assert Run(events[..2]) == Next(Run(events[..1]), SetEnd(0, true), 1);
    assert Run(events[..3]) == Next(Run(events[..2]), Invalidate(ns, true), 2);
    assert Run(events) == Next(Run(events[..3]), GetBegin(1, ns, raw, false), 3);
  }

  /** The version read of a get fails although the namespace has been invalidated. */
  predicate FailsAfterInvalidation(events: seq<Event>, k: nat)
    requires k < |events|
  {
    events[k].GetBegin? && !events[k].up && Invalidations(events, events[k].namespace, k) > 0
  }

  /** The runs in which version reads of a namespace fail after an invalidation only if it is one of `flaky`. */
  predicate Admits(flaky: set<string>, events: seq<Event>) {
    forall k :: 0 <= k < |events| && FailsAfterInvalidation(events, k) ==> events[k].namespace in flaky
  }

  ghost predicate HitsAreFresh(flaky: set<string>, namespace: string) {
    forall events, id ::
      Admits(flaky, events) && Hits(events, id) && Run(events).calls[id].key.namespace == namespace ==>
        Fresh(events, Run(events).calls[id], Answer(Run(events), id, true).value)
  }

  /**
   Every hit of a namespace is fresh, over every run, if and only if no version read
   of the namespace may fail once it has been invalidated.
   */
  lemma HitsAreFreshIff(flaky: set<string>, namespace: string)
    ensures HitsAreFresh(flaky, namespace) <==> namespace !in flaky
  {
    if namespace !in flaky {
      forall events, id |
        Admits(flaky, events) && Hits(events, id) && Run(events).calls[id].key.namespace == namespace
        ensures Fresh(events, Run(events).calls[id], Answer(Run(events), id, true).value)
      {
        FreshUnlessReadFailed(events, id);
      }
    } else {
      var events := [SetBegin(0, namespace, "k", "v", true), SetEnd(0, true), Invalidate(namespace, true),
                     GetBegin(1, namespace, "k", false)];
      FailedVersionReadServesStale(namespace, "k", "v");
      FreshUnlessReadFailed(events, 1);
      var call := Run(events).calls[1];
      assert call.at == 3 && Invalidates(events[2], namespace);
      assert !Fresh(events, call, Entry("v", 0));
      assert Admits(flaky, events) && Hits(events, 1);
    }
  }

  // ---------------------------------------------------------------------------
  // What is set is found
  // ---------------------------------------------------------------------------

  /** The event is of another call, and neither invalidates the namespace, nor sets the key, nor drops its entries. */
  predicate Quiet(e: Event, set0: nat, get0: nat, namespace: string, rawKey: string) {
    match e
    case GetBegin(id, _, _, _) => id != set0 && id != get0
    case GetEnd(id, _) => id != set0 && id != get0
    case SetBegin(id, ns, raw, _, _) => id != set0 && id != get0 && !(ns == namespace && raw == rawKey)
    case SetEnd(id, _) => id != set0 && id != get0
    case Invalidate(ns, up) => !(ns == namespace && up)
    case Drop(key) => !(key.namespace == namespace && key.rawKey == rawKey)
  }

  /** No other set of the key is between its steps. */
  predicate NoRival(s: State, set0: nat, namespace: string, rawKey: string) {
    forall id :: id in s.calls && id != set0 && s.calls[id].Writing? ==>
      !(s.calls[id].key.namespace == namespace && s.calls[id].key.rawKey == rawKey)
  }

  /** The set has read the current version and not yet written. */
  predicate AboutToSet(s: State, set0: nat, key: Key, at: nat, value: string) {
    && set0 in s.calls && s.calls[set0] == Writing(key, at, value) && key.version == VersionOf(s.versions, key.namespace)
    && NoRival(s, set0, key.namespace, key.rawKey)
  }

  /** The entry is there under the current version, and nothing is about to replace it. */
  predicate Settled(s: State, set0: nat, key: Key, entry: Entry) {
    && key in s.entries && s.entries[key] == entry && key.version == VersionOf(s.versions, key.namespace)
    && NoRival(s, set0, key.namespace, key.rawKey) && (set0 in s.calls ==> s.calls[set0].Reading?)
  }

  /** A quiet event changes nothing that the set, the entry or the get depends on. */
  lemma QuietStep(s: State, e: Event, n: nat, set0: nat, get0: nat, key: Key)
    requires Quiet(e, set0, get0, key.namespace, key.rawKey)
    ensures forall at, value :: AboutToSet(s, set0, key, at, value) ==> AboutToSet(Next(s, e, n), set0, key, at, value)
    ensures forall entry :: Settled(s, set0, key, entry) ==> Settled(Next(s, e, n), set0, key, entry)
    ensures get0 in s.calls ==> get0 in Next(s, e, n).calls && Next(s, e, n).calls[get0] == s.calls[get0]
  {
  }

  lemma {:induction false} SetIsPending(
      events: seq<Event>, set0: nat, get0: nat, key: Key, value: string, i: nat, n: nat)
    requires i < n <= |events| && AboutToSet(Run(events[..i + 1]), set0, key, i, value)
    requires forall k :: i < k < n ==> Quiet(events[k], set0, get0, key.namespace, key.rawKey)
    ensures AboutToSet(Run(events[..n]), set0, key, i, value)
    decreases n
  {
    hide Next, Quiet, AboutToSet, Settled;
    if i + 1 < n {
      SetIsPending(events, set0, get0, key, value, i, n - 1);
      QuietStep(Run(events[..n - 1]), events[n - 1], n - 1, set0, get0, key);
      assert events[..n][..n - 1] == events[..n - 1];
    }
  }

  lemma {:induction false} EntryStays(
      events: seq<Event>, set0: nat, get0: nat, key: Key, entry: Entry, j: nat, n: nat)
    requires j < n <= |events| && Settled(Run(events[..j + 1]), set0, key, entry)
    requires forall k :: j < k < n ==> Quiet(events[k], set0, get0, key.namespace, key.rawKey)
    ensures Settled(Run(events[..n]), set0, key, entry)
    decreases n
  {
    hide Next, Quiet, AboutToSet, Settled;
    if j + 1 < n {
      EntryStays(events, set0, get0, key, entry, j, n - 1);
      QuietStep(Run(events[..n - 1]), events[n - 1], n - 1, set0, get0, key);
      assert events[..n][..n - 1] == events[..n - 1];
    }
  }

  lemma {:induction false} GetIsPending(events: seq<Event>, set0: nat, get0: nat, key: Key, j: nat, n: nat)
    requires j < n <= |events|
    requires get0 in Run(events[..j + 1]).calls && Run(events[..j + 1]).calls[get0] == Reading(key, j)
    requires forall k :: j < k < n ==> Quiet(events[k], set0, get0, key.namespace, key.rawKey)
    ensures get0 in Run(events[..n]).calls && Run(events[..n]).calls[get0] == Reading(key, j)
    decreases n
  {
    hide Next, Quiet, AboutToSet, Settled;
    if j + 1 < n {
      GetIsPending(events, set0, get0, key, j, n - 1);
      QuietStep(Run(events[..n - 1]), events[n - 1], n - 1, set0, get0, key);
      assert events[..n][..n - 1] == events[..n - 1];
    }
  }

  lemma StepAt(events: seq<Event>, k: nat)
    requires k < |events|
    ensures Run(events[..k + 1]) == Next(Run(events[..k]), events[k], k)
  {
    assert events[..k + 1][..k] == events[..k];
  }

  /** Nothing is found that no set has stored: a set whose write has no effect leaves the entries as they are. */
  lemma {:induction false} EntryWasStored(events: seq<Event>, key: Key)
    requires key in Run(events).entries
    ensures exists k :: 0 <= k < |events| && events[k].SetEnd? && events[k].up
  {
    var n := |events| - 1;
    if key in Run(events[..n]).entries {
      EntryWasStored(events[..n], key);
      var k :| 0 <= k < |events[..n]| && events[..n][k].SetEnd? && events[..n][k].up;
      assert events[k].SetEnd? && events[k].up;
    } else {
      assert events[n].SetEnd? && events[n].up;
    }
  }

  /**
   What a set wrote, a later get of the same key finds, however many other calls
   interleave with both, as long as the namespace is not invalidated, the entry is
   not dropped and no other set of the key is under way.
   */
  lemma SetThenGetHits(
      events: seq<Event>, set0: nat, get0: nat, namespace: string, rawKey: string, value: string,
      i: nat, j: nat, k: nat)
    requires i < j < k < |events| && set0 != get0
    requires events[i] == SetBegin(set0, namespace, rawKey, value, true) && NoRival(Run(events[..i]), set0, namespace, rawKey)
    requires events[j] == SetEnd(set0, true) && events[k] == GetBegin(get0, namespace, rawKey, true)
    requires forall n :: i < n < |events| && n != j && n != k ==> Quiet(events[n], set0, get0, namespace, rawKey)
    ensures Answer(Run(events), get0, true) == Some(Entry(value, i))
  {
    hide Next;
    var key := Key(namespace, VersionOf(Run(events[..i]).versions, namespace), rawKey);
    SetBegins(events, set0, key, value, i);
    SetIsPending(events, set0, get0, key, value, i, j);
    SetEnds(events, set0, key, value, i, j);
    EntryStays(events, set0, get0, key, Entry(value, i), j, k);
    GetBegins(events, set0, get0, key, Entry(value, i), k);
    EntryStays(events, set0, get0, key, Entry(value, i), k, |events|);
    GetIsPending(events, set0, get0, key, k, |events|);
    assert events[..|events|] == events;
  }

  lemma SetBegins(events: seq<Event>, set0: nat, key: Key, value: string, i: nat)
    requires i < |events| && events[i] == SetBegin(set0, key.namespace, key.rawKey, value, true)
    requires key.version == VersionOf(Run(events[..i]).versions, key.namespace)
    requires NoRival(Run(events[..i]), set0, key.namespace, key.rawKey)
    ensures AboutToSet(Run(events[..i + 1]), set0, key, i, value)
  {
    StepAt(events, i);
  }

  lemma SetEnds(events: seq<Event>, set0: nat, key: Key, value: string, i: nat, j: nat)
    requires j < |events| && events[j] == SetEnd(set0, true) && AboutToSet(Run(events[..j]), set0, key, i, value)
    ensures Settled(Run(events[..j + 1]), set0, key, Entry(value, i))
  {
    StepAt(events, j);
  }

  lemma GetBegins(events: seq<Event>, set0: nat, get0: nat, key: Key, entry: Entry, k: nat)
    requires k < |events| && set0 != get0
    requires events[k] == GetBegin(get0, key.namespace, key.rawKey, true) && Settled(Run(events[..k]), set0, key, entry)
    ensures Settled(Run(events[..k + 1]), set0, key, entry)
    ensures get0 in Run(events[..k + 1]).calls && Run(events[..k + 1]).calls[get0] == Reading(key, k)
  {
    StepAt(events, k);
  }

  // ---------------------------------------------------------------------------
  // The text of the keys
  // ---------------------------------------------------------------------------

  function Digit(d: nat): char
    requires d < 10
  {
    '0' + d as char
  }

  function Digits(n: nat): string {
    if n < 10 then [Digit(n)] else Digits(n / 10) + [Digit(n % 10)]
  }

  function KeyText(prefix: string, key: Key): string {
    prefix + ":" + key.namespace + ":v" + Digits(key.version) + ":" + key.rawKey
  }

  function VersionKeyText(prefix: string, namespace: string): string {
    prefix + ":ns:" + namespace + ":version"
  }

  lemma {:induction false} DigitsHaveNoColon(n: nat)
    ensures ':' !in Digits(n) && |Digits(n)| >= 1
  {
    if n >= 10 {
      DigitsHaveNoColon(n / 10);
    }
  }

  lemma {:induction false} DigitsInjective(m: nat, n: nat)
    requires Digits(m) == Digits(n)
    ensures m == n
  {
    DigitsHaveNoColon(m / 10);
    DigitsHaveNoColon(n / 10);
    var d, e := Digits(m), Digits(n);
    assert d[|d| - 1] == Digit(m % 10) && e[|e| - 1] == Digit(n % 10);
    if m >= 10 && n >= 10 {
      assert d[..|d| - 1] == Digits(m / 10) && e[..|e| - 1] == Digits(n / 10);
      DigitsInjective(m / 10, n / 10);
    }
  }

  /** What stands before the first colon, and what after it, is determined by the text. */
  lemma SplitAtColon(a: string, x: string, b: string, y: string)
    requires ':' !in a && ':' !in b && a + ":" + x == b + ":" + y
    ensures a == b && x == y
  {
    var s, t := a + ":" + x, b + ":" + y;
    assert s[|a|] == ':' && t[|b|] == ':';
    assert forall k :: 0 <= k < |a| ==> s[k] == a[k] && a[k] != ':';
    assert forall k :: 0 <= k < |b| ==> t[k] == b[k] && b[k] != ':';
    assert a == s[..|a|] && b == t[..|b|];
    assert x == s[|a| + 1..] && y == t[|b| + 1..];
  }

  lemma DropPrefix(prefix: string, x: string, y: string)
    requires prefix + x == prefix + y
    ensures x == y
  {
    assert x == (prefix + x)[|prefix|..] && y == (prefix + y)[|prefix|..];
  }

  /**
   Distinct keys have distinct texts as long as namespaces contain no colon, which
   is why the model may use the triple in place of the text.
   */
  lemma KeyTextInjective(prefix: string, k1: Key, k2: Key)
    requires ':' !in k1.namespace && ':' !in k2.namespace
    requires KeyText(prefix, k1) == KeyText(prefix, k2)
    ensures k1 == k2
  {
    var d1, d2 := Digits(k1.version), Digits(k2.version);
    var rest1, rest2 := ("v" + d1) + ":" + k1.rawKey, ("v" + d2) + ":" + k2.rawKey;
    assert KeyText(prefix, k1) == (prefix + ":") + (k1.namespace + ":" + rest1);
    assert KeyText(prefix, k2) == (prefix + ":") + (k2.namespace + ":" + rest2);
    DropPrefix(prefix + ":", k1.namespace + ":" + rest1, k2.namespace + ":" + rest2);
    SplitAtColon(k1.namespace, rest1, k2.namespace, rest2);
    DigitsHaveNoColon(k1.version);
    DigitsHaveNoColon(k2.version);
    SplitAtColon("v" + d1, k1.rawKey, "v" + d2, k2.rawKey);
    DropPrefix("v", d1, d2);
    DigitsInjective(k1.version, k2.version);
  }

  /** No entry overwrites a version counter, as long as no namespace is called `ns`. */
  lemma EntriesMissVersionKeys(prefix: string, key: Key, namespace: string)
    requires ':' !in key.namespace && key.namespace != "ns"
    ensures KeyText(prefix, key) != VersionKeyText(prefix, namespace)
  {
    if KeyText(prefix, key) == VersionKeyText(prefix, namespace) {
      var rest := "v" + Digits(key.version) + ":" + key.rawKey;
      assert KeyText(prefix, key) == (prefix + ":") + (key.namespace + ":" + rest);
      assert VersionKeyText(prefix, namespace) == (prefix + ":") + ("ns" + ":" + (namespace + ":version"));
      DropPrefix(prefix + ":", key.namespace + ":" + rest, "ns" + ":" + (namespace + ":version"));
      SplitAtColon(key.namespace, rest, "ns", namespace + ":version");
      assert false;
    }
  }
}

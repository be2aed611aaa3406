/**
 * The read-through cache of a list endpoint. Readers (get, load, set with a TTL) and writers
 * (commit, then delete the key) interleave step by step while time passes, and every Redis call
 * may fail, with or without having taken effect.
 */
module ListCache {
  import opened Wrappers

  /** Contents of the table since an instant. */
  datatype Version<P> = Version(since: real, payload: P)

  /** What the key holds; when its contents were read from the table, and when they were set. */
  datatype CacheEntry<P> = CacheEntry(payload: P, loadedAt: real, setAt: real)

  datatype Loaded<P> = Loaded(payload: P, loadedAt: real)

  /** How far a reader has come; it leaves the map when it answers. */
  datatype Reader<P> = Missed | Filling(loaded: Loaded<P>)

  /** An answered request: what was served when, read from the table when, cached when. */
  datatype Served<P> = Served(payload: P, at: real, loadedAt: real, setAt: real)

  /** A SET may be applied, lost, or still on its way when the client gives up. */
  datatype SetOutcome = Applied | Lost | Delayed

  /** The current version of the table, the versions before it, and what is on its way to and from Redis. */
  datatype State<P> = State(
    ttl: real,
    now: real,
    table: Version<P>,
    past: seq<Version<P>>,
    entry: Option<CacheEntry<P>>,
    readers: map<int, Reader<P>>,
    delayed: seq<Loaded<P>>,
    served: seq<Served<P>>)

  datatype Step<P> =
    | Tick(seconds: real)
    | Commit(payload: P)
    | Delete(applied: bool)
    | Get(reader: int, fails: bool)
    | Load(reader: int)
    | Set(reader: int, outcome: SetOutcome)
    | Arrive(index: nat)
    | Evict
    | Uncached

  // ---------- The machine ----------

  function Table<P>(s: State<P>): P {
    s.table.payload
  }

  function Versions<P>(s: State<P>): seq<Version<P>> {
    s.past + [s.table]
  }

  predicate Live<P>(s: State<P>) {
    s.entry.Some? && s.now < s.entry.value.setAt + s.ttl
  }

  function Answer<P>(s: State<P>, payload: P, loadedAt: real, setAt: real): State<P> {
    s.(served := s.served + [Served(payload, s.now, loadedAt, setAt)])
  }

  function Stored<P>(s: State<P>, loaded: Loaded<P>): State<P> {
    s.(entry := Some(CacheEntry(loaded.payload, loaded.loadedAt, s.now)))
  }

  function GetKey<P>(s: State<P>, reader: int, fails: bool): State<P> {
    if reader in s.readers then s
    else if !fails && Live(s) then
      Answer(s, s.entry.value.payload, s.entry.value.loadedAt, s.entry.value.setAt)
    else s.(readers := s.readers[reader := Missed])
  }

  function SetKey<P>(s: State<P>, reader: int, outcome: SetOutcome): State<P> {
    if reader !in s.readers || s.readers[reader].Missed? then s
    else
      var loaded := s.readers[reader].loaded;
      var answered := Answer(s.(readers := s.readers - {reader}), loaded.payload, loaded.loadedAt, s.now);
      match outcome
      case Applied => Stored(answered, loaded)
      case Lost => answered
      case Delayed => answered.(delayed := s.delayed + [loaded])
  }

  function Apply<P>(s: State<P>, step: Step<P>): State<P> {
    match step
    case Tick(seconds) => if seconds >= 0.0 then s.(now := s.now + seconds) else s
    case Commit(payload) => s.(past := Versions(s), table := Version(s.now, payload))
    case Delete(applied) => if applied then s.(entry := None) else s
    case Get(reader, fails) => GetKey(s, reader, fails)
    case Load(reader) =>
      if reader in s.readers && s.readers[reader].Missed?
      then s.(readers := s.readers[reader := Filling(Loaded(Table(s), s.now))])
      else s
    case Set(reader, outcome) => SetKey(s, reader, outcome)
    case Arrive(i) =>
      if i < |s.delayed| then Stored(s, s.delayed[i]).(delayed := s.delayed[..i] + s.delayed[i + 1..]) else s
    case Evict => s.(entry := None)
    case Uncached => Answer(s, Table(s), s.now, s.now)
  }

  function After<P>(s: State<P>, steps: seq<Step<P>>): State<P> {
    if steps == [] then s else Apply(After(s, steps[..|steps| - 1]), steps[|steps| - 1])
  }

  ghost predicate Initial<P>(s: State<P>) {
    && s.ttl >= 0.0 && s.past == [] && s.table.since <= s.now
    && s.entry.None? && s.readers == map[] && s.delayed == [] && s.served == []
  }

  // ---------- Bounded staleness ----------

  /** The i-th version was the table's contents at instant t. */
  ghost predicate HeldAt<P>(versions: seq<Version<P>>, i: nat, t: real) {
    i < |versions| && versions[i].since <= t && (i + 1 < |versions| ==> t <= versions[i + 1].since)
  }

  ghost predicate WasTable<P>(s: State<P>, payload: P, t: real) {
    t <= s.now && exists i: nat :: HeldAt(Versions(s), i, t) && Versions(s)[i].payload == payload
  }

  /** Served no later than the TTL after the set that put it in the cache. */
  ghost predicate Fresh<P>(s: State<P>, r: Served<P>) {
    WasTable(s, r.payload, r.loadedAt) && r.loadedAt <= r.setAt <= r.at <= r.setAt + s.ttl
  }

  ghost predicate EntryWasTable<P>(s: State<P>) {
    s.entry.Some? ==>
      var e := s.entry.value;
      WasTable(s, e.payload, e.loadedAt) && e.loadedAt <= e.setAt <= s.now
  }

  ghost predicate ReadersWereTable<P>(s: State<P>) {
    forall r :: r in s.readers && s.readers[r].Filling? ==>
      WasTable(s, s.readers[r].loaded.payload, s.readers[r].loaded.loadedAt)
  }

  ghost predicate DelayedWereTable<P>(s: State<P>) {
    forall i :: 0 <= i < |s.delayed| ==> WasTable(s, s.delayed[i].payload, s.delayed[i].loadedAt)
  }

  ghost predicate ServedFresh<P>(s: State<P>) {
    forall i :: 0 <= i < |s.served| ==> Fresh(s, s.served[i])
  }

  ghost predicate Inv<P>(s: State<P>) {
    && s.ttl >= 0.0 && s.table.since <= s.now
    && EntryWasTable(s) && ReadersWereTable(s) && DelayedWereTable(s) && ServedFresh(s)
  }

  lemma TableHistoryKept<P>(s: State<P>, step: Step<P>, payload: P, t: real)
    requires Inv(s) && WasTable(s, payload, t)
    ensures WasTable(Apply(s, step), payload, t)
  {
    var i: nat :| HeldAt(Versions(s), i, t) && Versions(s)[i].payload == payload;
    assert HeldAt(Versions(Apply(s, step)), i, t);
  }

  lemma TableNow<P>(s: State<P>)
    requires Inv(s)
    ensures WasTable(s, Table(s), s.now)
  {
    assert HeldAt(Versions(s), |s.past|, s.now);
  }

  lemma StepKeepsEntry<P>(s: State<P>, step: Step<P>)
    requires Inv(s)
    ensures EntryWasTable(Apply(s, step))
  {
    var s' := Apply(s, step);
    if s.entry.Some? {
      TableHistoryKept(s, step, s.entry.value.payload, s.entry.value.loadedAt);
    }
    if step.Set? && step.reader in s.readers && s.readers[step.reader].Filling? {
      TableHistoryKept(s, step, s.readers[step.reader].loaded.payload, s.readers[step.reader].loaded.loadedAt);
    } else if step.Arrive? && step.index < |s.delayed| {
      TableHistoryKept(s, step, s.delayed[step.index].payload, s.delayed[step.index].loadedAt);
    }
  }

  lemma StepKeepsReaders<P>(s: State<P>, step: Step<P>)
    requires Inv(s)
    ensures ReadersWereTable(Apply(s, step))
  {
    var s' := Apply(s, step);
    TableNow(s);
    forall r | r in s'.readers && s'.readers[r].Filling?
      ensures WasTable(s', s'.readers[r].loaded.payload, s'.readers[r].loaded.loadedAt)
    {
      TableHistoryKept(s, step, s'.readers[r].loaded.payload, s'.readers[r].loaded.loadedAt);
    }
  }

  lemma StepKeepsDelayed<P>(s: State<P>, step: Step<P>)
    requires Inv(s)
    ensures DelayedWereTable(Apply(s, step))
  {
    var s' := Apply(s, step);
    forall i | 0 <= i < |s'.delayed| ensures WasTable(s', s'.delayed[i].payload, s'.delayed[i].loadedAt) {
      assert s'.delayed[i] in s.delayed
        || (step.Set? && step.reader in s.readers && s.readers[step.reader] == Filling(s'.delayed[i]));
      TableHistoryKept(s, step, s'.delayed[i].payload, s'.delayed[i].loadedAt);
    }
  }

  lemma StepKeepsServed<P>(s: State<P>, step: Step<P>)
    requires Inv(s)
    ensures ServedFresh(Apply(s, step))
  {
    var s' := Apply(s, step);
    TableNow(s);
    forall i | 0 <= i < |s'.served| ensures Fresh(s', s'.served[i]) {
      if i < |s.served| {
        assert s'.served[i] == s.served[i] && Fresh(s, s.served[i]);
      }
      TableHistoryKept(s, step, s'.served[i].payload, s'.served[i].loadedAt);
    }
  }

  lemma StepKeepsInv<P>(s: State<P>, step: Step<P>)
    requires Inv(s)
    ensures Inv(Apply(s, step))
  {
    StepKeepsEntry(s, step);
    StepKeepsReaders(s, step);
    StepKeepsDelayed(s, step);
    StepKeepsServed(s, step);
  }

  lemma {:induction false} RunKeepsInv<P>(s: State<P>, steps: seq<Step<P>>)
    requires Initial(s)
    ensures Inv(After(s, steps))
  {
    if steps != [] {
      RunKeepsInv(s, steps[..|steps| - 1]);
      StepKeepsInv(After(s, steps[..|steps| - 1]), steps[|steps| - 1]);
    }
  }

  lemma {:induction false} AfterConcat<P>(s: State<P>, a: seq<Step<P>>, b: seq<Step<P>>)
    ensures After(s, a + b) == After(After(s, a), b)
  {
    if b == [] {
      assert a + b == a;
    } else {
      assert (a + b)[..|a + b| - 1] == a + b[..|b| - 1];
      AfterConcat(s, a, b[..|b| - 1]);
    }
  }

  lemma TtlFixed<P>(s: State<P>, steps: seq<Step<P>>)
    ensures After(s, steps).ttl == s.ttl
  {
  }

  /**
   * Whatever readers, writers and failures do, a list served at time T was the table's contents
   * at an instant no earlier than T - TTL - (time between the filling reader's load and its set).
   */
  lemma BoundedStaleness<P>(s: State<P>, steps: seq<Step<P>>, i: nat) returns (t: real)
    requires Initial(s) && i < |After(s, steps).served|
    ensures var r := After(s, steps).served[i];
            && WasTable(After(s, steps), r.payload, t)
            && r.at - s.ttl - (r.setAt - r.loadedAt) <= t <= r.at
  {
    RunKeepsInv(s, steps);
    TtlFixed(s, steps);
    t := After(s, steps).served[i].loadedAt;
    assert Fresh(After(s, steps), After(s, steps).served[i]);
  }

  // ---------- Requests that nothing disturbs ----------

  function ReadSteps<P>(reader: int, getFails: bool, outcome: SetOutcome): seq<Step<P>> {
    [Get(reader, getFails), Load(reader), Set(reader, outcome)]
  }

  function ReadThrough<P>(s: State<P>, reader: int, getFails: bool, outcome: SetOutcome): State<P> {
    Apply(Apply(Apply(s, Get(reader, getFails)), Load(reader)), Set(reader, outcome))
  }

  lemma ReadIsRun<P>(s: State<P>, reader: int, getFails: bool, outcome: SetOutcome)
    ensures After(s, ReadSteps(reader, getFails, outcome)) == ReadThrough(s, reader, getFails, outcome)
  {
    var steps := ReadSteps<P>(reader, getFails, outcome);
    assert steps[..2][..1] == steps[..1] && steps[..1][..0] == [];
    assert After(s, steps[..1]) == Apply(s, steps[0]);
    assert After(s, steps[..2]) == Apply(After(s, steps[..1]), steps[1]);
  }

  /** No reader is under way, and a cached list is the current one. */
  ghost predicate Coherent<P>(s: State<P>) {
    s.readers == map[] && CacheCurrent(s)
  }

  lemma MissFills<P>(s: State<P>, reader: int, getFails: bool, outcome: SetOutcome)
    requires s.readers == map[] && (getFails || !Live(s))
    ensures var t, loaded := ReadThrough(s, reader, getFails, outcome), Loaded(Table(s), s.now);
            var answered := Answer(s, Table(s), s.now, s.now);
            t == match outcome
                 case Applied => Stored(answered, loaded)
                 case Lost => answered
                 case Delayed => answered.(delayed := s.delayed + [loaded])
  {
    var missed := Apply(s, Get(reader, getFails));
    assert missed == s.(readers := map[reader := Missed]);
    var filling := Apply(missed, Load(reader));
    assert filling == s.(readers := map[reader := Filling(Loaded(Table(s), s.now))]);
    assert filling.readers - {reader} == map[];
  }

  lemma HitAnswers<P>(s: State<P>, reader: int, outcome: SetOutcome)
    requires s.readers == map[] && Live(s)
    ensures ReadThrough(s, reader, false, outcome)
            == Answer(s, s.entry.value.payload, s.entry.value.loadedAt, s.entry.value.setAt)
  {
    var hit := Answer(s, s.entry.value.payload, s.entry.value.loadedAt, s.entry.value.setAt);
    assert Apply(s, Get(reader, false)) == hit;
    assert Apply(hit, Load(reader)) == hit;
  }

  /** From a current cache a read serves the current list, whatever fails, and leaves the cache current. */
  lemma ReadKeepsCoherent<P>(s: State<P>, reader: int, getFails: bool, outcome: SetOutcome)
    requires Coherent(s)
    ensures var t := ReadThrough(s, reader, getFails, outcome);
            && Coherent(t) && t.table == s.table && t.past == s.past
            && |t.served| == |s.served| + 1 && t.served[|s.served|].payload == Table(s)
  {
    if getFails || !Live(s) {
      MissFills(s, reader, getFails, outcome);
    } else {
      HitAnswers(s, reader, outcome);
    }
  }

  ghost predicate CacheCurrent<P>(s: State<P>) {
    s.entry.Some? ==> s.entry.value.payload == Table(s)
  }

  /**
   * When requests do overlap, a current key turns stale in exactly these steps: a commit of other
   * contents before the key is deleted, and a fill with contents that have been superseded.
   */
  ghost predicate TurnsStale<P>(s: State<P>, step: Step<P>) {
    match step
    case Commit(payload) => s.entry.Some? && payload != Table(s)
    case Set(reader, outcome) =>
      outcome.Applied? && reader in s.readers && s.readers[reader].Filling? && s.readers[reader].loaded.payload != Table(s)
    case Arrive(i) => i < |s.delayed| && s.delayed[i].payload != Table(s)
    case _ => false
  }

  lemma CurrentUnlessTurnsStale<P>(s: State<P>, step: Step<P>)
    requires CacheCurrent(s)
    ensures CacheCurrent(Apply(s, step)) <==> !TurnsStale(s, step)
  {
  }

  lemma AfterNext<P>(s: State<P>, steps: seq<Step<P>>, n: nat)
    requires n < |steps|
    ensures After(s, steps[..n + 1]) == Apply(After(s, steps[..n]), steps[n])
  {
    assert steps[..n + 1][..n] == steps[..n];
  }

  ghost predicate CurrentAt<P>(s: State<P>, steps: seq<Step<P>>, n: nat)
    requires n <= |steps|
  {
    CacheCurrent(After(s, steps[..n]))
  }

  ghost predicate TurnsStaleAt<P>(s: State<P>, steps: seq<Step<P>>, i: nat)
    requires i < |steps|
  {
    TurnsStale(After(s, steps[..i]), steps[i])
  }

  lemma CurrentNext<P>(s: State<P>, steps: seq<Step<P>>, i: nat)
    requires i < |steps| && CurrentAt(s, steps, i)
    ensures CurrentAt(s, steps, i + 1) <==> !TurnsStaleAt(s, steps, i)
  {
    CurrentUnlessTurnsStale(After(s, steps[..i]), steps[i]);
    AfterNext(s, steps, i);
  }

  lemma {:induction false} CurrentUpTo<P>(s: State<P>, steps: seq<Step<P>>, n: nat)
    requires CacheCurrent(s) && n <= |steps| && forall i :: 0 <= i < |steps| ==> !TurnsStaleAt(s, steps, i)
    ensures CurrentAt(s, steps, n)
  {
    if n == 0 {
      assert steps[..0] == [];
    } else {
      CurrentUpTo(s, steps, n - 1);
      CurrentNext(s, steps, n - 1);
    }
  }

  /** The key is current throughout a run iff no step turns it stale in the state it meets. */
  lemma CurrentThroughoutIff<P>(s: State<P>, steps: seq<Step<P>>)
    requires CacheCurrent(s)
    ensures (forall n :: 0 <= n <= |steps| ==> CurrentAt(s, steps, n))
            <==> (forall i :: 0 <= i < |steps| ==> !TurnsStaleAt(s, steps, i))
  {
    if forall i :: 0 <= i < |steps| ==> !TurnsStaleAt(s, steps, i) {
      forall n | 0 <= n <= |steps| ensures CurrentAt(s, steps, n) {
        CurrentUpTo(s, steps, n);
      }
    } else {
      var i :| 0 <= i < |steps| && TurnsStaleAt(s, steps, i);
      if CurrentAt(s, steps, i) {
        CurrentNext(s, steps, i);
      }
    }
  }

  /** Time passes, Redis evicts, and a SET that its client gave up on arrives after all. */
  lemma EnvironmentSteps<P>(s: State<P>, seconds: real, i: nat)
    ensures Apply(s, Evict) == s.(entry := None)
    ensures seconds >= 0.0 ==> Apply(s, Tick(seconds)) == s.(now := s.now + seconds)
    ensures i < |s.delayed| ==>
              var t, loaded := Apply(s, Arrive(i)), s.delayed[i];
              && t.entry == Some(CacheEntry(loaded.payload, loaded.loadedAt, s.now))
              && multiset(t.delayed) == multiset(s.delayed) - multiset{loaded}
  {
    if i < |s.delayed| {
      assert s.delayed == s.delayed[..i] + [s.delayed[i]] + s.delayed[i + 1..];
    }
  }

  // ---------- A fresh key is used ----------

  /** A get is answered from the key iff the call succeeds and less than the TTL has passed since the set. */
  lemma GetAnswersIff<P>(s: State<P>, reader: int, fails: bool)
    requires reader !in s.readers
    ensures var t := Apply(s, Get(reader, fails));
            if !fails && s.entry.Some? && s.now - s.entry.value.setAt < s.ttl
            then t == s.(served := s.served
                   + [Served(s.entry.value.payload, s.now, s.entry.value.loadedAt, s.entry.value.setAt)])
            else t == s.(readers := s.readers[reader := Missed])
  {
  }

  /** A step that may remove or replace the key. */
  predicate TouchesKey<P>(step: Step<P>) {
    step.Delete? || step.Set? || step.Arrive? || step.Evict?
  }

  lemma {:induction false} KeyStays<P>(s: State<P>, steps: seq<Step<P>>)
    requires forall i :: 0 <= i < |steps| ==> !TouchesKey(steps[i])
    ensures After(s, steps).entry == s.entry && After(s, steps).ttl == s.ttl
  {
    if steps != [] {
      KeyStays(s, steps[..|steps| - 1]);
    }
  }

  /**
   * What a read sets is served from the key, to every reader and at every instant before the TTL
   * is over, until something deletes, evicts or replaces it.
   */
  lemma SetIsServed<P>(s: State<P>, filler: int, steps: seq<Step<P>>, reader: int)
    requires filler in s.readers && s.readers[filler].Filling?
    requires forall i :: 0 <= i < |steps| ==> !TouchesKey(steps[i])
    ensures var loaded, later := s.readers[filler].loaded, After(Apply(s, Set(filler, Applied)), steps);
            reader !in later.readers && later.now - s.now < s.ttl ==>
              Apply(later, Get(reader, false)).served
              == later.served + [Served(loaded.payload, later.now, loaded.loadedAt, s.now)]
  {
    var filled := Apply(s, Set(filler, Applied));
    KeyStays(filled, steps);
    var later := After(filled, steps);
    if reader !in later.readers {
      GetAnswersIff(later, reader, false);
    }
  }

  // ---------- Fills that no commit interrupts ----------

  /** What readers have loaded and what is on its way to Redis is still the table's contents. */
  ghost predicate FillsCurrent<P>(s: State<P>) {
    && (forall r :: r in s.readers && s.readers[r].Filling? ==> s.readers[r].loaded.payload == Table(s))
    && (forall i :: 0 <= i < |s.delayed| ==> s.delayed[i].payload == Table(s))
  }

  /** A commit falls in no reader's span from load to set, nor in the delay of a set. */
  predicate Uninterrupting<P>(s: State<P>, step: Step<P>) {
    step.Commit? ==> s.delayed == [] && forall r :: r in s.readers ==> s.readers[r].Missed?
  }

  ghost predicate UninterruptingAt<P>(s: State<P>, steps: seq<Step<P>>, i: nat)
    requires i < |steps|
  {
    Uninterrupting(After(s, steps[..i]), steps[i])
  }

  /** The latest commit has not been followed by a delete that reached Redis. */
  function OwesDelete<P>(steps: seq<Step<P>>): bool {
    if steps == [] then false
    else
      var last := steps[|steps| - 1];
      last.Commit? || (last != Delete(true) && OwesDelete(steps[..|steps| - 1]))
  }

  lemma UninterruptedFills<P>(s: State<P>, step: Step<P>)
    requires FillsCurrent(s) && Uninterrupting(s, step)
    ensures FillsCurrent(Apply(s, step))
    ensures step.Commit? || !TurnsStale(s, step)
  {
    var s' := Apply(s, step);
    forall i | 0 <= i < |s'.delayed| ensures s'.delayed[i].payload == Table(s') {
      assert s'.delayed[i] in s.delayed
        || (step.Set? && step.reader in s.readers && s.readers[step.reader] == Filling(s'.delayed[i]));
    }
  }

  /**
   * If no commit falls between a load and its set, then readers may overlap writers as they like:
   * whenever every commit so far has been followed by a successful delete, the key is current.
   */
  lemma {:induction false} UninterruptedIsCurrent<P>(s: State<P>, steps: seq<Step<P>>)
    requires FillsCurrent(s) && CacheCurrent(s)
    requires forall i :: 0 <= i < |steps| ==> UninterruptingAt(s, steps, i)
    ensures FillsCurrent(After(s, steps))
    ensures !OwesDelete(steps) ==> CacheCurrent(After(s, steps))
  {
    if steps != [] {
      var n := |steps| - 1;
      forall i | 0 <= i < n ensures UninterruptingAt(s, steps[..n], i) {
        assert steps[..n][..i] == steps[..i] && UninterruptingAt(s, steps, i);
      }
      UninterruptedIsCurrent(s, steps[..n]);
      assert UninterruptingAt(s, steps, n);
      UninterruptedFills(After(s, steps[..n]), steps[n]);
      if !OwesDelete(steps) && steps[n] != Delete(true) {
        CurrentUnlessTurnsStale(After(s, steps[..n]), steps[n]);
      }
    }
  }

  /** One overlap is enough: a reader that loaded before a write fills the key after its delete. */
  lemma OverlapServesStale<P>(s: State<P>, update: P)
    requires Initial(s) && s.ttl > 0.0 && update != Table(s)
    ensures var written := Apply(Apply(Apply(Apply(s, Get(1, false)), Load(1)), Commit(update)), Delete(true));
            var t := Apply(written, Set(1, Applied));
            && Table(t) == update && Live(t)
            && Apply(t, Get(2, false)) == Answer(t, Table(s), s.now, s.now)
  {
    var missed := Apply(s, Get(1, false));
    assert missed == s.(readers := map[1 := Missed]);
    var filling := Apply(missed, Load(1));
    assert filling == s.(readers := map[1 := Filling(Loaded(Table(s), s.now))]);
  }

  // ---------- The code ----------

  class ListEndpoint<P> {
    var state: State<P>

    constructor (state: State<P>)
      ensures this.state == state
    {
      this.state := state;
    }

    /** read_through_json, undisturbed: cached when live, otherwise built from the table and stored. */
    method ReadThroughJson(reader: int, enabled: bool, getFails: bool, outcome: SetOutcome) returns (body: P)
      requires reader !in state.readers
      modifies this
      ensures state == if !enabled then Apply(old(state), Uncached)
                       else ReadThrough(old(state), reader, getFails, outcome)
      ensures body == if enabled && !getFails && Live(old(state)) then old(state).entry.value.payload else Table(old(state))
      ensures |state.served| == |old(state).served| + 1 && state.served[|old(state).served|].payload == body
      ensures reader !in state.readers
    {
      if !enabled {
        body := Table(state);
        state := Answer(state, body, state.now, state.now);
        return;
      }
      if !getFails && Live(state) {
        var cached := state.entry.value;
        state := Answer(state, cached.payload, cached.loadedAt, cached.setAt);
        return cached.payload;
      }
      state := state.(readers := state.readers[reader := Missed]);
      var loaded := Loaded(Table(state), state.now);
      state := state.(readers := state.readers[reader := Filling(loaded)]);
      state := Answer(state.(readers := state.readers - {reader}), loaded.payload, loaded.loadedAt, state.now);
      match outcome {
        case Applied => state := Stored(state, loaded);
        case Lost =>
        case Delayed => state := state.(delayed := state.delayed + [loaded]);
      }
      return loaded.payload;
    }

    /** A writer: commit first, then delete the key; a failed delete is only logged. */
    method WriteAndInvalidate(payload: P, deleteApplied: bool)
      modifies this
      ensures state == Apply(Apply(old(state), Commit(payload)), Delete(deleteApplied))
      ensures Table(state) == payload
      ensures deleteApplied ==> state.entry.None?
    {
      state := state.(past := Versions(state), table := Version(state.now, payload));
      if deleteApplied {
        state := state.(entry := None);
      }
    }
  }
}

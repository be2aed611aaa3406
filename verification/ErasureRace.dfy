/**
 * Erasures of a user racing with grants and revokes of one of the user's purposes. An erasure
 * starts by locking the users row (FOR UPDATE), later reads the GRANTED consent without a lock,
 * and writes it when it flushes and commits. What keeps the others out is the foreign key: a
 * changing grant or revoke inserts a row that refers to the user, and PostgreSQL checks it with a
 * FOR KEY SHARE lock on the users row, which waits for the erasure and which an erasure waits for.
 *
 * A flush and the commit that follows it are one step: a session that has its locks waits for
 * nobody in between, and nobody sees its changes before the commit.
 */
module ErasureRace {
  import opened Wrappers
  import opened Consent
  import Race = ConsentRace

  /** How far an erasure has come with this consent; `Over` counts what it withdrew. */
  datatype Erasure = Locked | Seen(row: Row) | Nothing | Over(withdrawn: nat) | RolledBack

  /** Who takes effect. */
  datatype Who = Client(id: int) | Eraser(id: int)

  datatype Placed = Placed(who: Who, served: Served)

  /** `order` lists the answered requests and the committed erasures as they took effect. */
  datatype State = State(race: Race.State, userLock: Option<int>, erasures: map<int, Erasure>, order: seq<Placed>)

  datatype Step =
    | Request(step: Race.Step)
    | LockUser(id: int)
    | Look(id: int)
    | Withdraw(id: int, now: int, source: string)
    | Rollback(id: int)

  // ---------- The machine ----------

  predicate Changes(race: Race.State, key: Key, id: int) {
    && id in race.sessions && race.sessions[id].phase.Holding?
    && Effect(Some(race.sessions[id].phase.row), key, race.sessions[id].request, 0).Some?
  }

  /** The step inserts a row that refers to the user. */
  predicate RefersToUser(race: Race.State, key: Key, step: Race.Step) {
    || (step.Commit? && Changes(race, key, step.id))
    || (step.Insert? && race.rows == [] && race.inserting.None?)
  }

  function Requested(s: State, key: Key, step: Race.Step): State {
    if s.userLock.Some? && RefersToUser(s.race, key, step) then s
    else
      var race := Race.Apply(s.race, key, step);
      var answered := Race.IsAnswered(s.race, step);
      s.(race := race,
         order := if answered
                  then s.order + [Placed(Client(step.id), Served(s.race.sessions[step.id].request, Race.AnsweredAt(s.race, step)))]
                  else s.order)
  }

  /** SELECT ... FROM users ... FOR UPDATE, which waits for an uncommitted insert that refers to the user. */
  function Lock(s: State, id: int): State {
    if id in s.erasures || s.userLock.Some? || s.race.inserting.Some? then s
    else s.(userLock := Some(id), erasures := s.erasures[id := Locked])
  }

  predicate At(s: State, id: int, phase: Erasure) {
    id in s.erasures && s.erasures[id] == phase
  }

  predicate IsGranted(race: Race.State) {
    race.rows != [] && race.rows[0].status.Granted?
  }

  /** The select of withdraw_all. */
  function LookUp(s: State, id: int): State {
    if !At(s, id, Locked) then s
    else s.(erasures := s.erasures[id := if IsGranted(s.race) then Seen(s.race.rows[0]) else Nothing])
  }

  /** The columns that the withdrawal assigns; the others keep what is stored by now. */
  function Overwritten(row: Row, now: int, source: string): Row {
    row.(status := Withdrawn, withdrawnAt := Some(now), updatedAt := now, source := source)
  }

  function Ended(s: State, id: int, count: nat, now: int, source: string): State {
    s.(userLock := None, erasures := s.erasures[id := Over(count)],
       order := s.order + [Placed(Eraser(id), Served(RevokeRequest(source), now))])
  }

  predicate CanWrite(s: State, id: int) {
    id in s.erasures && s.erasures[id].Seen? && s.race.rowLock.None? && s.race.rows != []
  }

  /** Flush and commit; the UPDATE waits for the lock on the consent row. */
  function Written(s: State, key: Key, id: int, now: int, source: string): State {
    if At(s, id, Nothing) then Ended(s, id, 0, now, source)
    else if !CanWrite(s, id) then s
    else
      var entry := Entry(key, Revoke, s.erasures[id].row.policyVersion, source, now);
      var rows := s.race.rows[0 := Overwritten(s.race.rows[0], now, source)];
      Ended(s, id, 1, now, source).(race := s.race.(rows := rows, log := s.race.log + [entry]))
  }

  function Aborted(s: State, id: int): State {
    if id in s.erasures && s.userLock == Some(id) then s.(userLock := None, erasures := s.erasures[id := RolledBack]) else s
  }

  /** A step that is not enabled, or has to wait, leaves everything as it is. */
  function Apply(s: State, key: Key, step: Step): State {
    match step
    case Request(request) => Requested(s, key, request)
    case LockUser(id) => Lock(s, id)
    case Look(id) => LookUp(s, id)
    case Withdraw(id, now, source) => Written(s, key, id, now, source)
    case Rollback(id) => Aborted(s, id)
  }

  function After(key: Key, steps: seq<Step>): State {
    if steps == [] then State(Race.After(key, []), None, map[], [])
    else Apply(After(key, steps[..|steps| - 1]), key, steps[|steps| - 1])
  }

  // ---------- What the locks guarantee ----------

  predicate InProgress(e: Erasure) {
    e.Locked? || e.Seen? || e.Nothing?
  }

  /** An erasure in progress holds the lock, and what it has read of the consent is what is stored. */
  ghost predicate ErasureHolds(s: State, id: int)
    requires id in s.erasures
  {
    && (InProgress(s.erasures[id]) <==> s.userLock == Some(id))
    && (s.erasures[id].Seen? ==> s.race.rows == [s.erasures[id].row] && s.erasures[id].row.status.Granted?)
    && (s.erasures[id].Nothing? ==> !IsGranted(s.race))
  }

  ghost predicate LocksHeld(s: State) {
    && Race.LocksHeld(s.race)
    && (s.userLock.Some? ==> s.userLock.value in s.erasures && s.race.inserting.None?)
    && (forall id :: id in s.erasures ==> ErasureHolds(s, id))
  }

  /** Under the lock on the user no request changes the consent. */
  lemma LockedRequestRests(s: State, key: Key, step: Race.Step)
    requires LocksHeld(s) && s.userLock.Some?
    ensures var race := Requested(s, key, step).race;
            race.rows == s.race.rows && race.log == s.race.log && race.inserting.None?
  {
    if step.id in s.race.sessions {
      assert Race.SessionHolds(s.race, step.id);
    }
  }

  lemma RequestKeepsLocks(s: State, key: Key, step: Race.Step)
    requires LocksHeld(s)
    ensures LocksHeld(Requested(s, key, step))
  {
    Race.StepKeepsLocks(s.race, key, step);
    var s' := Requested(s, key, step);
    if s.userLock.Some? {
      LockedRequestRests(s, key, step);
    }
    forall id | id in s'.erasures ensures ErasureHolds(s', id) {
      assert ErasureHolds(s, id);
    }
  }

  lemma WriteKeepsRaceLocks(race: Race.State, rows: seq<Row>, log: seq<Entry>)
    requires Race.LocksHeld(race) && race.rowLock.None? && |race.rows| == 1 && |rows| == 1
    ensures Race.LocksHeld(race.(rows := rows, log := log))
  {
    var race' := race.(rows := rows, log := log);
    forall id | id in race'.sessions ensures Race.SessionHolds(race', id) {
      assert Race.SessionHolds(race, id);
    }
  }

  lemma WriteKeepsLocks(s: State, key: Key, id: int, now: int, source: string)
    requires LocksHeld(s)
    ensures LocksHeld(Written(s, key, id, now, source))
  {
    var s' := Written(s, key, id, now, source);
    if CanWrite(s, id) {
      WriteKeepsRaceLocks(s.race, s'.race.rows, s'.race.log);
    }
    forall other | other in s'.erasures ensures ErasureHolds(s', other) {
      if other in s.erasures {
        assert ErasureHolds(s, other);
      }
    }
    if id in s.erasures {
      assert ErasureHolds(s, id);
    }
  }

  lemma StepKeepsLocks(s: State, key: Key, step: Step)
    requires LocksHeld(s)
    ensures LocksHeld(Apply(s, key, step))
  {
    match step
    case Request(request) => RequestKeepsLocks(s, key, request);
    case Withdraw(id, now, source) => WriteKeepsLocks(s, key, id, now, source);
    case _ =>
      var s' := Apply(s, key, step);
      forall id | id in s'.erasures ensures ErasureHolds(s', id) {
        if id in s.erasures {
          assert ErasureHolds(s, id);
        }
      }
  }

  // ---------- Serializability ----------

  function CellOf(s: State): Cell {
    Cell(Race.Current(s.race), s.race.log)
  }

  function ServedOf(order: seq<Placed>): seq<Served> {
    seq(|order|, i requires 0 <= i < |order| => order[i].served)
  }

  /** The serial execution, in which an erasure is a revoke. */
  function Serial(key: Key, order: seq<Placed>): Cell {
    ServeAll(key, ServedOf(order))
  }

  /** Whether the serial execution changes anything at its i-th place. */
  predicate ChangesAt(key: Key, order: seq<Placed>, i: nat)
    requires i < |order|
  {
    Effect(Serial(key, order[..i]).row, key, order[i].served.request, order[i].served.now).Some?
  }

  /** The client got this answer, or the erasure this count. */
  ghost predicate Told(s: State, p: Placed, changed: bool) {
    match p.who
    case Client(id) =>
      && id in s.race.sessions
      && s.race.sessions[id]
         == Race.Session(p.served.request, Race.Finished(if changed then Race.Changed else Race.Unchanged))
    case Eraser(id) => p.served.request.RevokeRequest? && At(s, id, Over(if changed then 1 else 0))
  }

  predicate Ends(s: State, who: Who) {
    match who
    case Client(id) =>
      && id in s.race.sessions && s.race.sessions[id].phase.Finished?
      && s.race.sessions[id].phase.outcome != Race.Aborted
    case Eraser(id) => id in s.erasures && s.erasures[id].Over?
  }

  predicate Listed(order: seq<Placed>, who: Who) {
    exists i :: 0 <= i < |order| && order[i].who == who
  }

  /**
   * Row and log are those of the serial execution of everybody who took effect, each of whom it
   * names once and tells what it was told.
   */
  ghost predicate OrderHolds(s: State, key: Key) {
    && CellOf(s) == Serial(key, s.order)
    && (forall i, j :: 0 <= i < j < |s.order| ==> s.order[i].who != s.order[j].who)
    && (forall i :: 0 <= i < |s.order| ==> Told(s, s.order[i], ChangesAt(key, s.order, i)))
    && (forall who :: Ends(s, who) ==> Listed(s.order, who))
  }

  lemma OrderGrows(key: Key, order: seq<Placed>, p: Placed)
    ensures Serial(key, order + [p]) == Serve(Serial(key, order), key, p.served.request, p.served.now)
    ensures forall i :: 0 <= i < |order| ==> (ChangesAt(key, order + [p], i) <==> ChangesAt(key, order, i))
    ensures ChangesAt(key, order + [p], |order|) <==> Effect(Serial(key, order).row, key, p.served.request, p.served.now).Some?
  {
    assert (order + [p])[..|order|] == order;
    assert ServedOf(order + [p])[..|order|] == ServedOf(order);
    forall i | 0 <= i < |order| ensures (order + [p])[..i] == order[..i] {
    }
  }

  /** Who has taken effect keeps what it was told. */
  ghost predicate KeepsTold(s: State, s': State) {
    && (forall id :: Ends(s, Client(id)) ==> id in s'.race.sessions && s'.race.sessions[id] == s.race.sessions[id])
    && (forall id :: Ends(s, Eraser(id)) ==> id in s'.erasures && s'.erasures[id] == s.erasures[id])
  }

  lemma ToldStays(s: State, s': State, p: Placed, changed: bool)
    requires KeepsTold(s, s') && Told(s, p, changed)
    ensures Told(s', p, changed) && Ends(s, p.who)
  {
    assert Ends(s, p.who);
  }

  lemma RestKeepsOrder(s: State, key: Key, s': State)
    requires OrderHolds(s, key) && KeepsTold(s, s') && CellOf(s') == CellOf(s) && s'.order == s.order
    requires forall who :: Ends(s', who) ==> Ends(s, who)
    ensures OrderHolds(s', key)
  {
    forall i | 0 <= i < |s'.order| ensures Told(s', s'.order[i], ChangesAt(key, s'.order, i)) {
      ToldStays(s, s', s.order[i], ChangesAt(key, s.order, i));
    }
  }

  /** Somebody new takes effect, is served on row and log, and is told so. */
  ghost predicate TakesEffect(s: State, key: Key, s': State, p: Placed) {
    && KeepsTold(s, s') && s'.order == s.order + [p] && !Ends(s, p.who)
    && CellOf(s') == Serve(CellOf(s), key, p.served.request, p.served.now)
    && Told(s', p, Effect(CellOf(s).row, key, p.served.request, p.served.now).Some?)
    && (forall who :: Ends(s', who) ==> Ends(s, who) || who == p.who)
  }

  lemma ListedStays(order: seq<Placed>, p: Placed, who: Who)
    requires Listed(order, who) || who == p.who
    ensures Listed(order + [p], who)
  {
    if who == p.who {
      assert (order + [p])[|order|].who == who;
    } else {
      var i :| 0 <= i < |order| && order[i].who == who;
      assert (order + [p])[i].who == who;
    }
  }

  lemma EffectExtendsOrder(s: State, key: Key, s': State, p: Placed)
    requires OrderHolds(s, key) && TakesEffect(s, key, s', p)
    ensures OrderHolds(s', key)
  {
    OrderGrows(key, s.order, p);
    forall i | 0 <= i < |s'.order|
      ensures Told(s', s'.order[i], ChangesAt(key, s'.order, i))
      ensures i < |s.order| ==> s'.order[i].who != p.who
    {
      if i < |s.order| {
        assert s'.order[i] == s.order[i];
        ToldStays(s, s', s.order[i], ChangesAt(key, s.order, i));
      }
    }
    forall who | Ends(s', who) ensures Listed(s'.order, who) {
      ListedStays(s.order, p, who);
    }
  }

  lemma AnswerTakesEffect(s: State, key: Key, s': State, p: Placed)
    requires p.who.Client? && Race.Answers(s.race, key, s'.race, p.who.id, p.served.now)
    requires p.served.request == s.race.sessions[p.who.id].request
    requires s'.order == s.order + [p] && s'.erasures == s.erasures
    ensures TakesEffect(s, key, s', p)
  {
  }

  lemma RequestKeepsOrder(s: State, key: Key, step: Race.Step)
    requires LocksHeld(s) && OrderHolds(s, key)
    ensures OrderHolds(Requested(s, key, step), key)
  {
    var s' := Requested(s, key, step);
    if !(s.userLock.Some? && RefersToUser(s.race, key, step)) {
      Race.StepAnswersOrRests(s.race, key, step);
      if Race.IsAnswered(s.race, step) {
        var p := Placed(Client(step.id), Served(s.race.sessions[step.id].request, Race.AnsweredAt(s.race, step)));
        AnswerTakesEffect(s, key, s', p);
        EffectExtendsOrder(s, key, s', p);
      } else {
        NoNewAnswers(s, key, step);
        RestKeepsOrder(s, key, s');
      }
    }
  }

  lemma NoNewAnswers(s: State, key: Key, step: Race.Step)
    requires LocksHeld(s) && !Race.IsAnswered(s.race, step)
    requires !(s.userLock.Some? && RefersToUser(s.race, key, step))
    ensures forall who :: Ends(Requested(s, key, step), who) ==> Ends(s, who)
  {
    Race.StepKeepsLocks(s.race, key, step);
    var race' := Race.Apply(s.race, key, step);
    forall id | id in race'.sessions && race'.sessions[id].phase.Finished? && race'.sessions[id].phase.outcome != Race.Aborted
      ensures id in s.race.sessions && s.race.sessions[id] == race'.sessions[id]
    {
      assert Race.SessionHolds(race', id);
    }
  }

  lemma WriteKeepsOrder(s: State, key: Key, id: int, now: int, source: string)
    requires LocksHeld(s) && OrderHolds(s, key)
    ensures OrderHolds(Written(s, key, id, now, source), key)
  {
    var s' := Written(s, key, id, now, source);
    if At(s, id, Nothing) || CanWrite(s, id) {
      assert ErasureHolds(s, id);
      RowIsViewOfLog(key, ServedOf(s.order));
      var p := Placed(Eraser(id), Served(RevokeRequest(source), now));
      assert CellOf(s') == Serve(CellOf(s), key, RevokeRequest(source), now);
      EffectExtendsOrder(s, key, s', p);
    }
  }

  lemma StepKeepsOrder(s: State, key: Key, step: Step)
    requires LocksHeld(s) && OrderHolds(s, key)
    ensures OrderHolds(Apply(s, key, step), key)
  {
    match step
    case Request(request) => RequestKeepsOrder(s, key, request);
    case Withdraw(id, now, source) => WriteKeepsOrder(s, key, id, now, source);
    case LockUser(id) => OwnStepKeepsOrder(s, key, Lock(s, id), id);
    case Look(id) => OwnStepKeepsOrder(s, key, LookUp(s, id), id);
    case Rollback(id) =>
      if id in s.erasures {
        assert ErasureHolds(s, id);
      }
      OwnStepKeepsOrder(s, key, Aborted(s, id), id);
  }

  /** A step of an erasure that does not end it. */
  lemma OwnStepKeepsOrder(s: State, key: Key, s': State, id: int)
    requires OrderHolds(s, key) && s'.race == s.race && s'.order == s.order
    requires s' != s ==> id in s'.erasures && !s'.erasures[id].Over? && !Ends(s, Eraser(id))
    requires s' != s ==> s'.erasures == s.erasures[id := s'.erasures[id]]
    ensures OrderHolds(s', key)
  {
    if s' != s {
      RestKeepsOrder(s, key, s');
    }
  }

  lemma {:induction false} RunKeepsInv(key: Key, steps: seq<Step>)
    ensures LocksHeld(After(key, steps)) && OrderHolds(After(key, steps), key)
  {
    if steps != [] {
      RunKeepsInv(key, steps[..|steps| - 1]);
      StepKeepsLocks(After(key, steps[..|steps| - 1]), key, steps[|steps| - 1]);
      StepKeepsOrder(After(key, steps[..|steps| - 1]), key, steps[|steps| - 1]);
    }
  }

  /**
   * In every interleaving of grants, revokes and erasures, aborts included: there is at most one
   * row; row, log, every answer and every count are those of a serial order in which an erasure
   * is a revoke; so the log is well-formed and the row is its view.
   */
  lemma SerializableWithErasures(key: Key, steps: seq<Step>)
    ensures var s := After(key, steps);
            && |s.race.rows| <= 1
            && OrderHolds(s, key)
            && Consistent(key, CellOf(s))
  {
    RunKeepsInv(key, steps);
    RowIsViewOfLog(key, ServedOf(After(key, steps).order));
  }

  /** Real-time order: everybody takes a place in the order only by a step of its own. */
  lemma OrderedWithinOwnSteps(s: State, key: Key, step: Step)
    ensures var s' := Apply(s, key, step);
            s'.order == s.order
            || (|s'.order| == |s.order| + 1 && s.order <= s'.order
                && s'.order[|s.order|].who == if step.Request? then Client(step.step.id) else Eraser(step.id))
  {
  }

  // ---------- Deadlock ----------

  /**
   * An erasure that wants to write the consent it has read holds the user, and a session that
   * wants to change that consent holds the row: each waits for the other.
   */
  predicate Deadlocked(s: State, key: Key) {
    && s.userLock.Some? && s.userLock.value in s.erasures && s.erasures[s.userLock.value].Seen?
    && s.race.rowLock.Some? && Changes(s.race, key, s.race.rowLock.value)
  }

  /** A step forward of an erasure, or of a client. */
  predicate Forward(step: Step, who: Who) {
    match who
    case Client(id) => step.Request? && step.step.id == id && !step.step.Abort?
    case Eraser(id) => !step.Request? && !step.Rollback? && step.id == id
  }

  lemma DeadlockedEraserWaits(s: State, key: Key, step: Step)
    requires LocksHeld(s) && Deadlocked(s, key) && Forward(step, Eraser(s.userLock.value))
    ensures Apply(s, key, step) == s
  {
  }

  lemma DeadlockedClientWaits(s: State, key: Key, step: Step)
    requires LocksHeld(s) && Deadlocked(s, key) && Forward(step, Client(s.race.rowLock.value))
    ensures Apply(s, key, step) == s
  {
  }

  /** A step forward of the two lock holders, unless they are deadlocked. */
  lemma HolderMoves(s: State, key: Key, e: int) returns (step: Step)
    requires LocksHeld(s) && !Deadlocked(s, key) && s.userLock == Some(e)
    ensures Forward(step, Eraser(e)) || (s.race.rowLock.Some? && Forward(step, Client(s.race.rowLock.value)))
    ensures Apply(s, key, step) != s && (step.Request? ==> !step.step.Begin?)
  {
    assert ErasureHolds(s, e);
    if s.erasures[e].Locked? {
      step := Look(e);
      assert Apply(s, key, step).erasures[e] != s.erasures[e];
    } else if s.erasures[e].Nothing? || s.race.rowLock.None? {
      step := Withdraw(e, 0, "");
      assert Apply(s, key, step).erasures[e] != s.erasures[e];
    } else {
      var id := s.race.rowLock.value;
      step := Request(Race.Commit(id, 0));
      assert Race.SessionHolds(s.race, id);
      assert Apply(s, key, step).race.sessions[id] != s.race.sessions[id];
    }
  }

  /** The holders of the two locks both wait iff they wait for each other in this way. */
  lemma DeadlockedIff(key: Key, steps: seq<Step>, e: int, id: int)
    requires After(key, steps).userLock == Some(e) && After(key, steps).race.rowLock == Some(id)
    ensures var s := After(key, steps);
            Deadlocked(s, key)
            <==> forall step :: Forward(step, Eraser(e)) || Forward(step, Client(id)) ==> Apply(s, key, step) == s
  {
    var s := After(key, steps);
    RunKeepsInv(key, steps);
    if Deadlocked(s, key) {
      forall step | Forward(step, Eraser(e)) || Forward(step, Client(id)) ensures Apply(s, key, step) == s {
        if Forward(step, Eraser(e)) {
          DeadlockedEraserWaits(s, key, step);
        } else {
          DeadlockedClientWaits(s, key, step);
        }
      }
    } else {
      var step := HolderMoves(s, key, e);
    }
  }

  predicate Unfinished(s: State, who: Who) {
    match who
    case Client(id) => id in s.race.sessions && !s.race.sessions[id].phase.Finished?
    case Eraser(id) => id in s.erasures && InProgress(s.erasures[id])
  }

  lemma ErasersHoldTheUser(s: State)
    requires LocksHeld(s)
    ensures forall id :: Unfinished(s, Eraser(id)) ==> s.userLock == Some(id)
  {
    forall id | Unfinished(s, Eraser(id)) ensures s.userLock == Some(id) {
      assert ErasureHolds(s, id);
    }
  }

  /** There is no other deadlock: while anybody is unfinished, somebody can step forward. */
  lemma OnlyDeadlock(key: Key, steps: seq<Step>, who: Who) returns (step: Step)
    requires Unfinished(After(key, steps), who) && !Deadlocked(After(key, steps), key)
    ensures !step.Rollback? && (step.Request? ==> !step.step.Begin? && !step.step.Abort?)
    ensures Apply(After(key, steps), key, step) != After(key, steps)
  {
    var s := After(key, steps);
    RunKeepsInv(key, steps);
    if s.userLock.Some? {
      step := HolderMoves(s, key, s.userLock.value);
    } else {
      ErasersHoldTheUser(s);
      var request := Race.SomebodyMoves(s.race, key, who.id, 0);
      step := Request(request);
      assert Apply(s, key, step).race != s.race;
    }
  }

  /** Only an abort of one of the two ends a deadlock. */
  lemma DeadlockStays(s: State, key: Key, step: Step)
    requires LocksHeld(s) && Deadlocked(s, key)
    requires step != Rollback(s.userLock.value) && step != Request(Race.Abort(s.race.rowLock.value))
    ensures Deadlocked(Apply(s, key, step), key)
    ensures Apply(s, key, step).userLock == s.userLock && Apply(s, key, step).race.rowLock == s.race.rowLock
  {
    var holder := s.race.rowLock.value;
    Race.OneLockAtATime(s.race, holder);
    if step.Request? && step.step.id in s.race.sessions {
      assert Race.SessionHolds(s.race, step.step.id);
    }
    if !step.Request? && step.id in s.erasures {
      assert ErasureHolds(s, step.id);
    }
  }

  /** And either abort does: the other one can then step forward. */
  lemma AbortResolves(s: State, key: Key, now: int, source: string)
    requires LocksHeld(s) && Deadlocked(s, key)
    ensures var e, id := s.userLock.value, s.race.rowLock.value;
            && !Deadlocked(Apply(s, key, Rollback(e)), key)
            && Apply(Apply(s, key, Rollback(e)), key, Request(Race.Commit(id, now))).race.log != s.race.log
            && !Deadlocked(Apply(s, key, Request(Race.Abort(id))), key)
            && At(Apply(Apply(s, key, Request(Race.Abort(id))), key, Withdraw(e, now, source)), e, Over(1))
  {
    assert ErasureHolds(s, s.userLock.value);
    assert Race.SessionHolds(s.race, s.race.rowLock.value);
  }

  // ---------- Granted after all ----------

  lemma AfterNext(key: Key, steps: seq<Step>, n: nat)
    requires n < |steps|
    ensures After(key, steps[..n + 1]) == Apply(After(key, steps[..n]), key, steps[n])
  {
    assert steps[..n + 1][..n] == steps[..n];
  }

  /** A grant that was under way, or came later, commits. */
  predicate GrantCommits(s: State, key: Key, step: Step) {
    && step.Request? && step.step.Commit? && step.step.id in s.race.sessions
    && !(s.userLock.Some? && RefersToUser(s.race, key, step.step))
    && var session := s.race.sessions[step.step.id];
       session.request.GrantRequest? && (session.phase.Holding? || session.phase.Inserted?)
  }

  lemma CommitGrants(s: Race.State, key: Key, id: int, now: int)
    requires Race.LocksHeld(s) && (s.rows != [] ==> s.rows[0].status.Withdrawn?)
    requires id in s.sessions && (s.sessions[id].phase.Holding? || s.sessions[id].phase.Inserted?)
    ensures var rows := Race.Apply(s, key, Race.Commit(id, now)).rows;
            rows != [] && (rows[0].status.Granted? <==> s.sessions[id].request.GrantRequest?)
  {
    assert Race.SessionHolds(s, id);
  }

  lemma GrantedIffGrantCommits(s: State, key: Key, step: Step)
    requires LocksHeld(s) && !IsGranted(s.race)
    ensures IsGranted(Apply(s, key, step).race) <==> GrantCommits(s, key, step)
  {
    if step.Request? && step.step.Commit? && step.step.id in s.race.sessions {
      var p := s.race.sessions[step.step.id].phase;
      if p.Holding? || p.Inserted? {
        CommitGrants(s.race, key, step.step.id, step.step.now);
      }
    }
  }

  /** At the moment an erasure commits, the consent is not granted. */
  lemma OverMeansNotGranted(s: State, key: Key, step: Step, id: int)
    requires LocksHeld(s) && !Ends(s, Eraser(id)) && Ends(Apply(s, key, step), Eraser(id))
    ensures !IsGranted(Apply(s, key, step).race)
  {
    if id in s.erasures {
      assert ErasureHolds(s, id);
    }
  }

  ghost predicate GrantedAt(key: Key, steps: seq<Step>, k: nat)
    requires k <= |steps|
  {
    IsGranted(After(key, steps[..k]).race)
  }

  ghost predicate GrantCommitsAt(key: Key, steps: seq<Step>, i: nat)
    requires i < |steps|
  {
    GrantCommits(After(key, steps[..i]), key, steps[i])
  }

  lemma GrantedNext(key: Key, steps: seq<Step>, i: nat)
    requires i < |steps| && !GrantedAt(key, steps, i)
    ensures GrantedAt(key, steps, i + 1) <==> GrantCommitsAt(key, steps, i)
  {
    RunKeepsInv(key, steps[..i]);
    GrantedIffGrantCommits(After(key, steps[..i]), key, steps[i]);
    AfterNext(key, steps, i);
  }

  lemma {:induction false} NotGrantedAt(key: Key, steps: seq<Step>, n: nat, k: nat)
    requires n <= k <= |steps| && !GrantedAt(key, steps, n)
    requires forall i :: n <= i < |steps| ==> !GrantCommitsAt(key, steps, i)
    ensures !GrantedAt(key, steps, k)
  {
    if n < k {
      NotGrantedAt(key, steps, n, k - 1);
      GrantedNext(key, steps, k - 1);
    }
  }

  /** From then on it is not granted throughout iff no grant commits. */
  lemma StaysWithdrawnIff(key: Key, steps: seq<Step>, n: nat)
    requires n <= |steps| && !GrantedAt(key, steps, n)
    ensures (forall k :: n <= k <= |steps| ==> !GrantedAt(key, steps, k))
            <==> (forall i :: n <= i < |steps| ==> !GrantCommitsAt(key, steps, i))
  {
    if forall i :: n <= i < |steps| ==> !GrantCommitsAt(key, steps, i) {
      forall k | n <= k <= |steps| ensures !GrantedAt(key, steps, k) {
        NotGrantedAt(key, steps, n, k);
      }
    } else {
      var i :| n <= i < |steps| && GrantCommitsAt(key, steps, i);
      if !GrantedAt(key, steps, i) {
        GrantedNext(key, steps, i);
      }
    }
  }

  // ---------- Both happen ----------

  function Granting(version: string): seq<Race.Step> {
    [Race.Begin(1, GrantRequest(version, "api"), 0), Race.Select(1, 0), Race.Insert(1, 0), Race.Commit(1, 0)]
  }

  function Working(version: string, phase: Race.Phase): map<int, Race.Session> {
    map[1 := Race.Session(GrantRequest(version, "api"), phase)]
  }

  /** The first grant, step by step. */
  lemma GrantingStates(key: Key, version: string)
    ensures var s0 := Race.After(key, []);
            var g := Granting(version);
            var absent := s0.(sessions := Working(version, Race.Absent(1, 0)));
            && Race.Apply(Race.Apply(s0, key, g[0]), key, g[1]) == absent
            && Race.Apply(absent, key, g[2]) == s0.(sessions := Working(version, Race.Inserted(1, 0)), inserting := Some(1))
            && var s := Race.Apply(Race.Apply(absent, key, g[2]), key, g[3]);
               && s.rows == [Row(Granted, version, Some(0), None, 0, "api")]
               && s.log == [Entry(key, Grant, version, "api", 0)]
               && s.rowLock.None? && s.inserting.None? && s.sessions.Keys == {1}
  {
    var s0, g := Race.After(key, []), Granting(version);
    assert Race.Apply(s0, key, g[0]) == s0.(sessions := Working(version, Race.Selecting(1, 0)));
  }

  /** A first grant that found no row, and inserts its own after the erasure has committed. */
  function LateGrant(version: string): seq<Step> {
    var g := Granting(version);
    [Request(g[0]), Request(g[1]), LockUser(9), Look(9), Withdraw(9, 1, "erasure"), Request(g[2]), Request(g[3])]
  }

  lemma ErasedBeforeInsert(key: Key, version: string)
    ensures var s := After(key, LateGrant(version)[..5]);
            && s.race == Race.After(key, []).(sessions := Working(version, Race.Absent(1, 0)))
            && s.userLock.None? && s.erasures == map[9 := Over(0)]
  {
    var steps := LateGrant(version);
    GrantingStates(key, version);
    assert steps[..0] == [];
    AfterNext(key, steps, 0);
    AfterNext(key, steps, 1);
    AfterNext(key, steps, 2);
    AfterNext(key, steps, 3);
    AfterNext(key, steps, 4);
  }

  lemma GrantedAfterErasure(key: Key, version: string)
    ensures var s := After(key, LateGrant(version));
            IsGranted(s.race) && At(s, 9, Over(0))
  {
    var steps := LateGrant(version);
    GrantingStates(key, version);
    ErasedBeforeInsert(key, version);
    AfterNext(key, steps, 5);
    AfterNext(key, steps, 6);
    assert steps[..7] == steps;
  }

  /** A revoke takes the row lock between the read and the write of an erasure. */
  function LockCycle(version: string): seq<Step> {
    var g := Granting(version);
    [ Request(g[0]), Request(g[1]), Request(g[2]), Request(g[3]), LockUser(9), Look(9),
      Request(Race.Begin(2, RevokeRequest("api"), 1)), Request(Race.Select(2, 1)) ]
  }

  lemma GrantedAndSeen(key: Key, version: string)
    ensures var s, row := After(key, LockCycle(version)[..6]), Row(Granted, version, Some(0), None, 0, "api");
            && s.userLock == Some(9) && s.erasures == map[9 := Seen(row)]
            && s.race.rows == [row] && s.race.rowLock.None? && 2 !in s.race.sessions
  {
    var steps := LockCycle(version);
    GrantingStates(key, version);
    assert steps[..0] == [];
    AfterNext(key, steps, 0);
    AfterNext(key, steps, 1);
    AfterNext(key, steps, 2);
    AfterNext(key, steps, 3);
    AfterNext(key, steps, 4);
    AfterNext(key, steps, 5);
  }

  lemma DeadlockHappens(key: Key, version: string)
    ensures var s := After(key, LockCycle(version));
            Deadlocked(s, key) && s.userLock == Some(9) && s.race.rowLock == Some(2)
  {
    var steps := LockCycle(version);
    GrantedAndSeen(key, version);
    AfterNext(key, steps, 6);
    AfterNext(key, steps, 7);
    assert steps[..8] == steps;
  }
}

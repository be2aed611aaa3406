/**
 * Any number of concurrent grants and revokes of one (user, purpose), at the granularity of
 * their database steps. PostgreSQL is taken at READ COMMITTED: a locked select waits for the row
 * lock and then sees the committed row, sees nothing (and locks nothing) while no row is
 * committed, and an insert into the unique index waits for an uncommitted rival and fails once a
 * committed row holds the key.
 */
module ConsentRace {
  import opened Wrappers
  import opened Consent

  datatype Outcome = Changed | Unchanged | IntegrityError | Aborted

  datatype Phase =
    | Selecting(attempt: nat, now: int)
    | Holding(attempt: nat, now: int, row: Row)
    | Absent(attempt: nat, now: int)
    | Inserted(attempt: nat, now: int)
    | Finished(outcome: Outcome)

  datatype Session = Session(request: Request, phase: Phase)

  /** A finished request in the order in which the requests took effect. */
  datatype Commitment = Commitment(id: int, served: Served)

  datatype State = State(
    rows: seq<Row>,
    log: seq<Entry>,
    rowLock: Option<int>,
    inserting: Option<int>,
    sessions: map<int, Session>,
    order: seq<Commitment>)

  /**
   * `now` is the clock at the step: a grant reads it before it selects (again on its retry), a
   * revoke after it has the row.
   */
  datatype Step =
    | Begin(id: int, request: Request, now: int)
    | Select(id: int, now: int)
    | Insert(id: int, now: int)
    | Commit(id: int, now: int)
    | Abort(id: int)

  // ---------- The machine ----------

  function Current(s: State): Option<Row> {
    if s.rows == [] then None else Some(s.rows[0])
  }

  function Moved(s: State, id: int, phase: Phase): State
    requires id in s.sessions
  {
    s.(sessions := s.sessions[id := s.sessions[id].(phase := phase)])
  }

  /** The request takes effect here: it is answered, and its place in the order is fixed. */
  function Answered(s: State, id: int, now: int, outcome: Outcome): State
    requires id in s.sessions
  {
    Moved(s, id, Finished(outcome)).(order := s.order + [Commitment(id, Served(s.sessions[id].request, now))])
  }

  function Released(s: State, id: int): State {
    s.(rowLock := if s.rowLock == Some(id) then None else s.rowLock,
       inserting := if s.inserting == Some(id) then None else s.inserting)
  }

  /** The locked select of _get_current. */
  function SelectForUpdate(s: State, id: int, p: Phase, now: int): State
    requires id in s.sessions && p.Selecting?
  {
    if s.rows == [] then
      if s.sessions[id].request.RevokeRequest? then Answered(s, id, now, Unchanged)
      else Moved(s, id, Absent(p.attempt, p.now))
    else if s.rowLock.Some? then s
    else Moved(s, id, Holding(p.attempt, p.now, s.rows[0])).(rowLock := Some(id))
  }

  /** The flush of a first grant; a violated unique constraint rolls back and retries once. */
  function UniqueInsert(s: State, id: int, p: Phase, now: int): State
    requires id in s.sessions && p.Absent?
  {
    if s.rows != [] then
      if p.attempt == 1 then Moved(s, id, Selecting(2, now)) else Moved(s, id, Finished(IntegrityError))
    else if s.inserting.Some? then s
    else Moved(s, id, Inserted(p.attempt, p.now)).(inserting := Some(id))
  }

  /** Commit of the update under the row lock, or the end of a session that changes nothing. */
  function CommitHeld(s: State, key: Key, id: int, p: Phase, now: int): State
    requires id in s.sessions && p.Holding?
  {
    var request := s.sessions[id].request;
    var at := if request.GrantRequest? then p.now else now;
    var effect := Effect(Some(p.row), key, request, at);
    if effect.None? then Released(Answered(s, id, at, Unchanged), id)
    else
      Released(Answered(s, id, at, Changed), id).(
        rows := if s.rows == [] then [] else s.rows[0 := effect.value.0], log := s.log + [effect.value.1])
  }

  function CommitInsert(s: State, key: Key, id: int, p: Phase): State
    requires id in s.sessions && p.Inserted?
  {
    var effect := Effect(None, key, s.sessions[id].request, p.now);
    if effect.None? then s
    else
      Released(Answered(s, id, p.now, Changed), id).(rows := s.rows + [effect.value.0], log := s.log + [effect.value.1])
  }

  /** A step that is not enabled, or has to wait, leaves everything as it is. */
  function Apply(s: State, key: Key, step: Step): State {
    if step.Begin? then
      if step.id in s.sessions then s
      else s.(sessions := s.sessions[step.id := Session(step.request, Selecting(1, step.now))])
    else if step.id !in s.sessions then s
    else
      var p := s.sessions[step.id].phase;
      match step
      case Select(id, now) => if p.Selecting? then SelectForUpdate(s, id, p, now) else s
      case Insert(id, now) => if p.Absent? then UniqueInsert(s, id, p, now) else s
      case Commit(id, now) =>
        if p.Holding? then CommitHeld(s, key, id, p, now)
        else if p.Inserted? then CommitInsert(s, key, id, p)
        else s
      case Abort(id) => if p.Finished? then s else Released(Moved(s, id, Finished(Aborted)), id)
  }

  function After(key: Key, steps: seq<Step>): State {
    if steps == [] then State([], [], None, None, map[], [])
    else Apply(After(key, steps[..|steps| - 1]), key, steps[|steps| - 1])
  }

  // ---------- Serializability ----------

  function ServedOf(order: seq<Commitment>): seq<Served> {
    seq(|order|, i requires 0 <= i < |order| => order[i].served)
  }

  /** The serial execution of the requests in their order. */
  function Serial(key: Key, order: seq<Commitment>): Cell {
    ServeAll(key, ServedOf(order))
  }

  /** The answer that the serial execution gives to the i-th request. */
  function SerialAnswer(key: Key, order: seq<Commitment>, i: nat): Outcome
    requires i < |order|
  {
    var served := order[i].served;
    if Effect(Serial(key, order[..i]).row, key, served.request, served.now).None? then Unchanged else Changed
  }

  /** It gave up for no integrity error, and if it was answered it has a place in the order. */
  ghost predicate ProperlyFinished(s: State, id: int)
    requires id in s.sessions && s.sessions[id].phase.Finished?
  {
    match s.sessions[id].phase.outcome
    case IntegrityError => false
    case Aborted => true
    case _ => exists i :: 0 <= i < |s.order| && s.order[i].id == id
  }

  ghost predicate SessionHolds(s: State, id: int)
    requires id in s.sessions
  {
    match s.sessions[id].phase
    case Selecting(attempt, _) => attempt == 1 || (attempt == 2 && s.rows != [])
    case Holding(_, _, row) => s.rowLock == Some(id) && s.rows == [row]
    case Absent(attempt, _) => attempt == 1 && s.sessions[id].request.GrantRequest?
    case Inserted(attempt, _) => s.inserting == Some(id) && s.rows == [] && s.sessions[id].request.GrantRequest?
    case Finished(_) => ProperlyFinished(s, id)
  }

  ghost predicate LocksHeld(s: State) {
    && |s.rows| <= 1
    && (s.rowLock.Some? ==> s.rowLock.value in s.sessions && s.sessions[s.rowLock.value].phase.Holding?)
    && (s.inserting.Some? ==> s.inserting.value in s.sessions && s.sessions[s.inserting.value].phase.Inserted?)
    && (forall id :: id in s.sessions ==> SessionHolds(s, id))
  }

  /**
   * Row and log are those of the serial execution, which names every request once and gives
   * each the answer it got.
   */
  ghost predicate OrderHolds(s: State, key: Key) {
    && Cell(Current(s), s.log) == Serial(key, s.order)
    && (forall i, j :: 0 <= i < j < |s.order| ==> s.order[i].id != s.order[j].id)
    && (forall i :: 0 <= i < |s.order| ==>
          && s.order[i].id in s.sessions
          && s.sessions[s.order[i].id] == Session(s.order[i].served.request, Finished(SerialAnswer(key, s.order, i))))
  }

  ghost predicate Inv(s: State, key: Key) {
    LocksHeld(s) && OrderHolds(s, key)
  }

  lemma OrderGrows(key: Key, order: seq<Commitment>, c: Commitment)
    ensures Serial(key, order + [c]) == Serve(Serial(key, order), key, c.served.request, c.served.now)
    ensures forall i :: 0 <= i < |order| ==> SerialAnswer(key, order + [c], i) == SerialAnswer(key, order, i)
    ensures (order + [c])[..|order|] == order
  {
    assert (order + [c])[..|order|] == order;
    assert ServedOf(order + [c])[..|order|] == ServedOf(order);
    forall i | 0 <= i < |order| ensures (order + [c])[..i] == order[..i] {
    }
  }

  /** A step of one session, which leaves the locks of the others and what they hold alone. */
  ghost predicate OwnStep(s: State, s': State, id: int) {
    && s'.sessions.Keys == s.sessions.Keys + {id} && s.order <= s'.order
    && (forall other :: other in s.sessions && other != id ==> s'.sessions[other] == s.sessions[other])
    && (s'.rowLock == s.rowLock || s'.rowLock == Some(id) || (s.rowLock == Some(id) && s'.rowLock.None?))
    && (s'.inserting == s.inserting || s'.inserting == Some(id) || (s.inserting == Some(id) && s'.inserting.None?))
    && (s.rows != [] ==> s'.rows != [])
    && (s'.rows == s.rows || s.rowLock == Some(id) || s.inserting == Some(id))
  }

  lemma OtherHolds(s: State, s': State, id: int, other: int)
    requires LocksHeld(s) && OwnStep(s, s', id) && other in s.sessions && other != id
    requires s.rowLock == Some(other) ==> s'.rowLock == s.rowLock && s'.rows == s.rows
    requires s.inserting == Some(other) ==> s'.inserting == s.inserting && s'.rows == s.rows
    ensures SessionHolds(s', other)
  {
    assert SessionHolds(s, other);
    if s.sessions[other].phase.Finished? && ProperlyFinished(s, other) && !s.sessions[other].phase.outcome.Aborted? {
      var i :| 0 <= i < |s.order| && s.order[i].id == other;
      assert s'.order[i].id == other;
    }
  }

  /** Between them the two locks exclude each other, so an own step disturbs nobody. */
  lemma OwnStepKeepsLocks(s: State, s': State, id: int)
    requires LocksHeld(s) && OwnStep(s, s', id)
    requires s.rowLock.Some? && s.rowLock != Some(id) ==> s'.rowLock == s.rowLock && s'.rows == s.rows
    requires s.inserting.Some? && s.inserting != Some(id) ==> s'.inserting == s.inserting && s'.rows == s.rows
    requires |s'.rows| <= 1 && SessionHolds(s', id)
    requires s'.rowLock == Some(id) ==> s'.sessions[id].phase.Holding?
    requires s'.inserting == Some(id) ==> s'.sessions[id].phase.Inserted?
    ensures LocksHeld(s')
  {
    forall other | other in s'.sessions ensures SessionHolds(s', other) {
      if other != id {
        OtherHolds(s, s', id, other);
      }
    }
    if s'.rowLock.Some? && s'.rowLock.value != id {
      assert s'.rowLock.value in s.sessions && s'.rowLock.value in s'.sessions;
    }
    if s'.inserting.Some? && s'.inserting.value != id {
      assert s'.inserting.value in s.sessions && s'.inserting.value in s'.sessions;
    }
  }

  lemma LastAnswered(order: seq<Commitment>, c: Commitment)
    ensures (order + [c])[|order|].id == c.id
  {
  }

  /** Whoever can commit is the only one that holds a lock: there is a row to lock, or none yet. */
  lemma OneLockAtATime(s: State, id: int)
    requires LocksHeld(s) && id in s.sessions && (s.sessions[id].phase.Holding? || s.sessions[id].phase.Inserted?)
    ensures s.rowLock.None? || s.rowLock == Some(id)
    ensures s.inserting.None? || s.inserting == Some(id)
  {
    assert SessionHolds(s, id);
    if s.rowLock.Some? {
      assert SessionHolds(s, s.rowLock.value);
    }
    if s.inserting.Some? {
      assert SessionHolds(s, s.inserting.value);
    }
  }

  lemma BeginKeepsLocks(s: State, key: Key, step: Step)
    requires LocksHeld(s) && step.Begin? && step.id !in s.sessions
    ensures LocksHeld(Apply(s, key, step))
  {
    OwnStepKeepsLocks(s, Apply(s, key, step), step.id);
  }

  lemma SelectKeepsLocks(s: State, key: Key, step: Step)
    requires LocksHeld(s) && step.Select? && step.id in s.sessions && s.sessions[step.id].phase.Selecting?
    ensures LocksHeld(Apply(s, key, step))
  {
    assert SessionHolds(s, step.id);
    LastAnswered(s.order, Commitment(step.id, Served(s.sessions[step.id].request, step.now)));
    OwnStepKeepsLocks(s, Apply(s, key, step), step.id);
  }

  lemma InsertKeepsLocks(s: State, key: Key, step: Step)
    requires LocksHeld(s) && step.Insert? && step.id in s.sessions && s.sessions[step.id].phase.Absent?
    ensures LocksHeld(Apply(s, key, step))
  {
    assert SessionHolds(s, step.id);
    OwnStepKeepsLocks(s, Apply(s, key, step), step.id);
  }

  lemma CommitKeepsLocks(s: State, key: Key, step: Step)
    requires LocksHeld(s) && step.Commit? && step.id in s.sessions
    requires s.sessions[step.id].phase.Holding? || s.sessions[step.id].phase.Inserted?
    ensures LocksHeld(Apply(s, key, step))
  {
    assert SessionHolds(s, step.id);
    OneLockAtATime(s, step.id);
    var s' := Apply(s, key, step);
    assert s'.order[|s.order|].id == step.id;
    OwnStepKeepsLocks(s, s', step.id);
  }

  lemma AbortKeepsLocks(s: State, key: Key, step: Step)
    requires LocksHeld(s) && step.Abort? && step.id in s.sessions && !s.sessions[step.id].phase.Finished?
    ensures LocksHeld(Apply(s, key, step))
  {
    assert SessionHolds(s, step.id);
    OwnStepKeepsLocks(s, Apply(s, key, step), step.id);
  }

  lemma StepKeepsLocks(s: State, key: Key, step: Step)
    requires LocksHeld(s)
    ensures LocksHeld(Apply(s, key, step))
  {
    if step.Begin? {
      if step.id !in s.sessions {
        BeginKeepsLocks(s, key, step);
      }
    } else if step.id in s.sessions {
      var p := s.sessions[step.id].phase;
      if step.Select? && p.Selecting? {
        SelectKeepsLocks(s, key, step);
      } else if step.Insert? && p.Absent? {
        InsertKeepsLocks(s, key, step);
      } else if step.Commit? && (p.Holding? || p.Inserted?) {
        CommitKeepsLocks(s, key, step);
      } else if step.Abort? && !p.Finished? {
        AbortKeepsLocks(s, key, step);
      }
    }
  }

  /** The session is answered here, as a serial execution would answer it. */
  ghost predicate Answers(s: State, key: Key, s': State, id: int, now: int) {
    && id in s.sessions && !s.sessions[id].phase.Finished?
    && var request := s.sessions[id].request;
       var answer := if Effect(Current(s), key, request, now).None? then Unchanged else Changed;
       && s'.order == s.order + [Commitment(id, Served(request, now))]
       && s'.sessions == s.sessions[id := Session(request, Finished(answer))]
       && Cell(Current(s'), s'.log) == Serve(Cell(Current(s), s.log), key, request, now)
  }

  /** Nobody is answered, and row, log and answers stay. */
  ghost predicate Rests(s: State, s': State) {
    && s'.order == s.order && s'.rows == s.rows && s'.log == s.log
    && (forall id :: id in s.sessions && s.sessions[id].phase.Finished? ==>
          id in s'.sessions && s'.sessions[id] == s.sessions[id])
  }

  lemma CommitAnswers(s: State, key: Key, id: int, now: int)
    requires LocksHeld(s)
    requires id in s.sessions && (s.sessions[id].phase.Holding? || s.sessions[id].phase.Inserted?)
    ensures var at := if s.sessions[id].request.GrantRequest? then s.sessions[id].phase.now else now;
            Answers(s, key, Apply(s, key, Commit(id, now)), id, at)
  {
    assert SessionHolds(s, id);
  }

  lemma SelectAnswers(s: State, key: Key, id: int, now: int)
    requires s.rows == [] && id in s.sessions && s.sessions[id].phase.Selecting? && s.sessions[id].request.RevokeRequest?
    ensures Answers(s, key, Apply(s, key, Select(id, now)), id, now)
  {
  }

  /** Whether a step answers its own session, and at which instant. */
  predicate IsAnswered(s: State, step: Step) {
    && step.id in s.sessions
    && var session := s.sessions[step.id];
       || (step.Commit? && (session.phase.Holding? || session.phase.Inserted?))
       || (step.Select? && session.phase.Selecting? && s.rows == [] && session.request.RevokeRequest?)
  }

  function AnsweredAt(s: State, step: Step): int
    requires IsAnswered(s, step)
  {
    var session := s.sessions[step.id];
    if step.Commit? && session.request.GrantRequest? then session.phase.now else step.now
  }

  lemma StepAnswersOrRests(s: State, key: Key, step: Step)
    requires LocksHeld(s)
    ensures var s' := Apply(s, key, step);
            if IsAnswered(s, step) then Answers(s, key, s', step.id, AnsweredAt(s, step)) else Rests(s, s')
  {
    if IsAnswered(s, step) {
      if step.Commit? {
        CommitAnswers(s, key, step.id, step.now);
      } else {
        SelectAnswers(s, key, step.id, step.now);
      }
    }
  }

  lemma AnswerExtendsOrder(s: State, key: Key, s': State, id: int, now: int)
    requires OrderHolds(s, key) && Answers(s, key, s', id, now)
    ensures OrderHolds(s', key)
  {
    var c := Commitment(id, Served(s.sessions[id].request, now));
    OrderGrows(key, s.order, c);
    forall i | 0 <= i < |s'.order|
      ensures s'.order[i].id in s'.sessions
      ensures s'.sessions[s'.order[i].id] == Session(s'.order[i].served.request, Finished(SerialAnswer(key, s'.order, i)))
    {
      assert i < |s.order| ==> s'.order[i] == s.order[i];
    }
  }

  lemma RestKeepsOrder(s: State, key: Key, s': State)
    requires OrderHolds(s, key) && Rests(s, s')
    ensures OrderHolds(s', key)
  {
  }

  lemma StepKeepsOrder(s: State, key: Key, step: Step)
    requires LocksHeld(s) && OrderHolds(s, key)
    ensures OrderHolds(Apply(s, key, step), key)
  {
    var s' := Apply(s, key, step);
    StepAnswersOrRests(s, key, step);
    if IsAnswered(s, step) {
      AnswerExtendsOrder(s, key, s', step.id, AnsweredAt(s, step));
    } else {
      RestKeepsOrder(s, key, s');
    }
  }

  lemma {:induction false} RunKeepsInv(key: Key, steps: seq<Step>)
    ensures Inv(After(key, steps), key)
  {
    if steps != [] {
      var s := After(key, steps[..|steps| - 1]);
      RunKeepsInv(key, steps[..|steps| - 1]);
      StepKeepsLocks(s, key, steps[|steps| - 1]);
      StepKeepsOrder(s, key, steps[|steps| - 1]);
    }
  }

  /**
   * In every interleaving: there is at most one row; row and log are those of the serial
   * execution of the answered requests in the order they took effect; each answered request is
   * in that order once, with the answer it got; and no grant ends in an integrity error, so one
   * retry is always enough.
   */
  lemma Serializable(key: Key, steps: seq<Step>)
    ensures var s := After(key, steps);
            && |s.rows| <= 1
            && OrderHolds(s, key)
            && Consistent(key, Serial(key, s.order))
            && (forall id :: id in s.sessions && s.sessions[id].phase.Finished? ==> ProperlyFinished(s, id))
  {
    var s := After(key, steps);
    RunKeepsInv(key, steps);
    RowIsViewOfLog(key, ServedOf(s.order));
    forall id | id in s.sessions && s.sessions[id].phase.Finished? ensures ProperlyFinished(s, id) {
      assert SessionHolds(s, id);
    }
  }

  /** Real-time order: a request takes its place in the order only by a step of its own session. */
  lemma OrderedWithinOwnSteps(s: State, key: Key, step: Step)
    ensures var s' := Apply(s, key, step);
            s'.order == s.order || (|s'.order| == |s.order| + 1 && s.order <= s'.order && s'.order[|s.order|].id == step.id)
  {
  }

  /**
   * What the clock says when: a grant is dated at its first select, or at its second one if it had
   * to retry, so before it waited for the lock; a revoke is dated when it has the row.
   */
  lemma Clocks(s: State, key: Key, id: int, request: Request, now: int)
    requires LocksHeld(s)
    ensures id !in s.sessions ==> Apply(s, key, Begin(id, request, now)).sessions[id].phase == Selecting(1, now)
    ensures id in s.sessions && s.sessions[id].phase.Selecting? && s.rows != [] && s.rowLock.None? ==>
              var p := Apply(s, key, Select(id, now)).sessions[id].phase;
              p == Holding(s.sessions[id].phase.attempt, s.sessions[id].phase.now, s.rows[0])
    ensures id in s.sessions && s.sessions[id].phase.Absent? && s.rows != [] ==>
              Apply(s, key, Insert(id, now)).sessions[id].phase == Selecting(2, now)
    ensures var s' := Apply(s, key, Commit(id, now));
            |s'.log| > |s.log| ==>
              && id in s.sessions && s'.log[|s.log|].occurredAt
                 == (if s.sessions[id].request.GrantRequest? then s.sessions[id].phase.now else now)
  {
    if id in s.sessions {
      assert SessionHolds(s, id);
    }
  }

  lemma SomebodyMoves(s: State, key: Key, id: int, now: int) returns (step: Step)
    requires LocksHeld(s) && id in s.sessions && !s.sessions[id].phase.Finished?
    ensures !step.Begin? && !step.Abort?
    ensures Apply(s, key, step) != s
  {
    assert SessionHolds(s, id);
    var p := s.sessions[id].phase;
    if p.Selecting? && s.rows != [] && s.rowLock.Some? {
      step := Commit(s.rowLock.value, now);
    } else if p.Absent? && s.rows == [] && s.inserting.Some? {
      step := Commit(s.inserting.value, now);
      assert SessionHolds(s, s.inserting.value);
    } else if p.Selecting? {
      step := Select(id, now);
    } else if p.Absent? {
      step := Insert(id, now);
    } else {
      step := Commit(id, now);
    }
    var s' := Apply(s, key, step);
    assert s'.sessions[step.id].phase != s.sessions[step.id].phase;
  }

  /** The locks never stall everybody: while a request is unanswered, some session can move on. */
  lemma NoDeadlock(key: Key, steps: seq<Step>, id: int, now: int) returns (step: Step)
    requires id in After(key, steps).sessions && !After(key, steps).sessions[id].phase.Finished?
    ensures !step.Begin? && !step.Abort?
    ensures Apply(After(key, steps), key, step) != After(key, steps)
  {
    RunKeepsInv(key, steps);
    step := SomebodyMoves(After(key, steps), key, id, now);
  }
}

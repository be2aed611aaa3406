/** Every grant and revoke can be answered: three steps for each that is under way are enough. */
module ConsentProgress {
  import opened Wrappers
  import opened Sets
  import opened Consent
  import opened ConsentRace

  function Continue(s: State, key: Key, steps: seq<Step>): State {
    if steps == [] then s else Apply(Continue(s, key, steps[..|steps| - 1]), key, steps[|steps| - 1])
  }

  lemma {:induction false} AfterThenContinue(key: Key, steps: seq<Step>, more: seq<Step>)
    ensures After(key, steps + more) == Continue(After(key, steps), key, more)
  {
    if more == [] {
      assert steps + more == steps;
    } else {
      assert (steps + more)[..|steps + more| - 1] == steps + more[..|more| - 1];
      AfterThenContinue(key, steps, more[..|more| - 1]);
    }
  }

  lemma {:induction false} ContinueConcat(s: State, key: Key, a: seq<Step>, b: seq<Step>)
    ensures Continue(s, key, a + b) == Continue(Continue(s, key, a), key, b)
  {
    if b == [] {
      assert a + b == a;
    } else {
      assert (a + b)[..|a + b| - 1] == a + b[..|b| - 1];
      ContinueConcat(s, key, a, b[..|b| - 1]);
    }
  }

  lemma ContinueOne(s: State, key: Key, step: Step)
    ensures Continue(s, key, [step]) == Apply(s, key, step)
  {
    assert [step][..0] == [];
  }

  /** Neither a new request nor an abort. */
  predicate GoesOn(step: Step) {
    !step.Begin? && !step.Abort?
  }

  ghost predicate AllGoOn(steps: seq<Step>) {
    forall i :: 0 <= i < |steps| ==> GoesOn(steps[i])
  }

  function Unanswered(s: State): set<int> {
    set id | id in s.sessions && !s.sessions[id].phase.Finished?
  }

  predicate Free(s: State) {
    s.rowLock.None? && s.inserting.None?
  }

  /** Only this session has moved. */
  predicate OthersStay(s: State, s': State, id: int) {
    id in s.sessions && id in s'.sessions && s'.sessions == s.sessions[id := s'.sessions[id]]
  }

  lemma HolderFinishes(s: State, key: Key, id: int, now: int)
    requires LocksHeld(s) && id in s.sessions && (s.sessions[id].phase.Holding? || s.sessions[id].phase.Inserted?)
    ensures var s' := Apply(s, key, Commit(id, now));
            OthersStay(s, s', id) && s'.sessions[id].phase.Finished? && Free(s')
  {
    OneLockAtATime(s, id);
    assert SessionHolds(s, id);
  }

  lemma SelectMoves(s: State, key: Key, id: int, now: int)
    requires LocksHeld(s) && Free(s) && id in s.sessions && s.sessions[id].phase.Selecting?
    ensures var s' := Apply(s, key, Select(id, now));
            && OthersStay(s, s', id) && s'.rows == s.rows
            && if s.rows != [] then s'.sessions[id].phase.Holding?
               else Free(s') && (s'.sessions[id].phase.Absent? || s'.sessions[id].phase.Finished?)
  {
  }

  lemma InsertMoves(s: State, key: Key, id: int, now: int)
    requires LocksHeld(s) && Free(s) && id in s.sessions && s.sessions[id].phase.Absent?
    ensures var s' := Apply(s, key, Insert(id, now));
            && OthersStay(s, s', id) && s'.rows == s.rows
            && if s.rows == [] then s'.sessions[id].phase.Inserted? else Free(s') && s'.sessions[id].phase.Selecting?
  {
    assert SessionHolds(s, id);
  }

  ghost predicate Finishes(s: State, key: Key, id: int, steps: seq<Step>) {
    var s' := Continue(s, key, steps);
    && AllGoOn(steps) && LocksHeld(s')
    && OthersStay(s, s', id) && s'.sessions[id].phase.Finished? && Free(s')
  }

  lemma FirstThenFinishes(s: State, key: Key, id: int, first: Step, rest: seq<Step>)
    requires LocksHeld(s) && GoesOn(first) && OthersStay(s, Apply(s, key, first), id)
    requires Finishes(Apply(s, key, first), key, id, rest)
    ensures Finishes(s, key, id, [first] + rest)
  {
    ContinueOne(s, key, first);
    ContinueConcat(s, key, [first], rest);
  }

  lemma FinishHolder(s: State, key: Key, id: int, now: int) returns (steps: seq<Step>)
    requires LocksHeld(s) && id in s.sessions && (s.sessions[id].phase.Holding? || s.sessions[id].phase.Inserted?)
    ensures Finishes(s, key, id, steps) && |steps| == 1
  {
    steps := [Commit(id, now)];
    HolderFinishes(s, key, id, now);
    ContinueOne(s, key, Commit(id, now));
    StepKeepsLocks(s, key, Commit(id, now));
  }

  /** A session that selects, and finds a row or not. */
  lemma FinishSelecting(s: State, key: Key, id: int, now: int) returns (steps: seq<Step>)
    requires LocksHeld(s) && Free(s) && id in s.sessions && s.sessions[id].phase.Selecting?
    ensures Finishes(s, key, id, steps) && |steps| <= if s.rows == [] then 3 else 2
  {
    var selected := Apply(s, key, Select(id, now));
    SelectMoves(s, key, id, now);
    StepKeepsLocks(s, key, Select(id, now));
    var rest: seq<Step> := [];
    if selected.sessions[id].phase.Holding? {
      rest := FinishHolder(selected, key, id, now);
    } else if selected.sessions[id].phase.Absent? {
      rest := FinishInserting(selected, key, id, now);
    }
    FirstThenFinishes(s, key, id, Select(id, now), rest);
    steps := [Select(id, now)] + rest;
  }

  lemma FinishInserting(s: State, key: Key, id: int, now: int) returns (steps: seq<Step>)
    requires LocksHeld(s) && Free(s) && id in s.sessions && s.sessions[id].phase.Absent? && s.rows == []
    ensures Finishes(s, key, id, steps) && |steps| == 2
  {
    InsertMoves(s, key, id, now);
    StepKeepsLocks(s, key, Insert(id, now));
    var rest := FinishHolder(Apply(s, key, Insert(id, now)), key, id, now);
    FirstThenFinishes(s, key, id, Insert(id, now), rest);
    steps := [Insert(id, now)] + rest;
  }

  /** The one retry: the insert fails, and the second select finds the row. */
  lemma FinishRetrying(s: State, key: Key, id: int, now: int) returns (steps: seq<Step>)
    requires LocksHeld(s) && Free(s) && id in s.sessions && s.sessions[id].phase.Absent? && s.rows != []
    ensures Finishes(s, key, id, steps) && |steps| <= 3
  {
    InsertMoves(s, key, id, now);
    StepKeepsLocks(s, key, Insert(id, now));
    var rest := FinishSelecting(Apply(s, key, Insert(id, now)), key, id, now);
    FirstThenFinishes(s, key, id, Insert(id, now), rest);
    steps := [Insert(id, now)] + rest;
  }

  /** The session that holds a lock if there is one, and any session otherwise. */
  lemma NextToFinish(s: State) returns (id: int)
    requires LocksHeld(s) && Unanswered(s) != {}
    ensures id in Unanswered(s) && (Free(s) || s.sessions[id].phase.Holding? || s.sessions[id].phase.Inserted?)
  {
    if s.rowLock.Some? {
      id := s.rowLock.value;
    } else if s.inserting.Some? {
      id := s.inserting.value;
    } else {
      HasMember(Unanswered(s));
      id :| id in Unanswered(s);
    }
  }

  lemma FinishOne(s: State, key: Key, id: int, now: int) returns (steps: seq<Step>)
    requires LocksHeld(s) && id in Unanswered(s)
    requires Free(s) || s.sessions[id].phase.Holding? || s.sessions[id].phase.Inserted?
    ensures Finishes(s, key, id, steps) && |steps| <= 3
  {
    var p := s.sessions[id].phase;
    if p.Holding? || p.Inserted? {
      steps := FinishHolder(s, key, id, now);
    } else if p.Selecting? {
      steps := FinishSelecting(s, key, id, now);
    } else if s.rows == [] {
      steps := FinishInserting(s, key, id, now);
    } else {
      steps := FinishRetrying(s, key, id, now);
    }
  }

  lemma OneLess(s: State, s': State, id: int)
    requires id in Unanswered(s) && OthersStay(s, s', id) && s'.sessions[id].phase.Finished?
    ensures Unanswered(s') == Unanswered(s) - {id} && |Unanswered(s')| == |Unanswered(s)| - 1
  {
    assert Unanswered(s') == Unanswered(s) - {id};
  }

  lemma {:induction false} FinishAll(s: State, key: Key, now: int) returns (steps: seq<Step>)
    requires LocksHeld(s)
    ensures AllGoOn(steps) && |steps| <= 3 * |Unanswered(s)|
    ensures Unanswered(Continue(s, key, steps)) == {}
    decreases |Unanswered(s)|
  {
    if Unanswered(s) == {} {
      steps := [];
    } else {
      var id := NextToFinish(s);
      var first := FinishOne(s, key, id, now);
      var s' := Continue(s, key, first);
      OneLess(s, s', id);
      var rest := FinishAll(s', key, now);
      ContinueConcat(s, key, first, rest);
      steps := first + rest;
    }
  }

  /** From every reachable state, three steps per open request at most answer everybody, without an abort. */
  lemma AlwaysAnswers(key: Key, steps: seq<Step>, now: int) returns (more: seq<Step>)
    ensures AllGoOn(more) && |more| <= 3 * |Unanswered(After(key, steps))|
    ensures Unanswered(After(key, steps + more)) == {}
  {
    RunKeepsInv(key, steps);
    more := FinishAll(After(key, steps), key, now);
    AfterThenContinue(key, steps, more);
  }
}

/**
 * Dispatches racing with consent requests and with each other. A dispatch fetches the queued
 * messages, asks the gate for each of them, one read after the other and without a lock, and
 * writes all statuses when it commits.
 */
module DispatchRace {
  import opened Wrappers
  import opened Consent
  import opened Privacy
  import opened PrivacyLaws

  /** The gate's answer for one message, and how many entries the user's log had when it was given. */
  datatype Verdict = Verdict(id: int, allowed: bool, seen: nat)

  datatype Dispatch =
    | Deciding(now: int, queue: seq<int>, verdicts: seq<Verdict>)
    | Committed
    | Failed

  /** `cells` holds the MARKETING_EMAIL consent of each user. */
  datatype State = State(cells: map<int, Cell>, messages: map<int, Message>, dispatches: map<int, Dispatch>)

  datatype Step =
    | Requesting(user: int, request: Request, now: int)
    | Enqueue(id: int, user: int, campaign: string)
    | Fetch(dispatch: int, now: int, queue: seq<int>)
    | Judge(dispatch: int)
    | Commit(dispatch: int)
    | Fail(dispatch: int)

  // ---------- The machine ----------

  function CellFor(s: State, user: int): Cell {
    if user in s.cells then s.cells[user] else Cell(None, [])
  }

  function Log(s: State, user: int): seq<Entry> {
    CellFor(s, user).log
  }

  function Queue(s: State): set<int> {
    set id | id in s.messages && s.messages[id].status.Queued?
  }

  predicate IsDeciding(s: State, d: int) {
    d in s.dispatches && s.dispatches[d].Deciding?
  }

  ghost predicate DistinctIds(queue: seq<int>) {
    forall i, j :: 0 <= i < j < |queue| ==> queue[i] != queue[j]
  }

  /** Some order in which the query may return the queued rows. */
  ghost predicate ReturnsQueue(s: State, queue: seq<int>) {
    DistinctIds(queue) && forall id :: id in queue <==> id in Queue(s)
  }

  function VerdictOn(s: State, id: int): Verdict
    requires id in s.messages
  {
    var user := s.messages[id].userId;
    Verdict(id, Decide(CellFor(s, user).row, CURRENT_POLICY_VERSION).allowed, |Log(s, user)|)
  }

  function Judged(s: State, d: int): State {
    if !IsDeciding(s, d) then s
    else
      var dispatch := s.dispatches[d];
      if |dispatch.verdicts| >= |dispatch.queue| || dispatch.queue[|dispatch.verdicts|] !in s.messages then s
      else
        var verdict := VerdictOn(s, dispatch.queue[|dispatch.verdicts|]);
        s.(dispatches := s.dispatches[d := dispatch.(verdicts := dispatch.verdicts + [verdict])])
  }

  function Find(verdicts: seq<Verdict>, id: int): Option<Verdict> {
    if verdicts == [] then None
    else if verdicts[|verdicts| - 1].id == id then Some(verdicts[|verdicts| - 1])
    else Find(verdicts[..|verdicts| - 1], id)
  }

  function Settled(messages: map<int, Message>, dispatch: Dispatch): map<int, Message>
    requires dispatch.Deciding?
  {
    map id | id in messages ::
      var verdict := Find(dispatch.verdicts, id);
      if verdict.None? then messages[id]
      else messages[id].(status := if verdict.value.allowed then Sent else Skipped, processedAt := Some(dispatch.now))
  }

  predicate CanCommit(s: State, d: int) {
    IsDeciding(s, d) && |s.dispatches[d].verdicts| == |s.dispatches[d].queue|
  }

  ghost function Apply(s: State, step: Step): State {
    match step
    case Requesting(user, request, now) =>
      s.(cells := s.cells[user := Serve(CellFor(s, user), (user, MarketingEmail), request, now)])
    case Enqueue(id, user, campaign) =>
      if id in s.messages then s else s.(messages := s.messages[id := Message(user, campaign, Queued, None)])
    case Fetch(d, now, queue) =>
      if d in s.dispatches || !ReturnsQueue(s, queue) then s
      else s.(dispatches := s.dispatches[d := Deciding(now, queue, [])])
    case Judge(d) => Judged(s, d)
    case Commit(d) =>
      if !CanCommit(s, d) then s
      else s.(messages := Settled(s.messages, s.dispatches[d]), dispatches := s.dispatches[d := Committed])
    case Fail(d) => if IsDeciding(s, d) then s.(dispatches := s.dispatches[d := Failed]) else s
  }

  ghost function After(steps: seq<Step>): State {
    if steps == [] then State(map[], map[], map[])
    else Apply(After(steps[..|steps| - 1]), steps[|steps| - 1])
  }

  // ---------- A verdict is right about the log it saw ----------

  /** The log of that moment is still there, as the beginning of the present one. */
  ghost predicate RightWhenGiven(s: State, v: Verdict) {
    && v.id in s.messages
    && var log := Log(s, s.messages[v.id].userId);
       v.seen <= |log| && (v.allowed <==> LastIsCurrentGrant(log[..v.seen]))
  }

  ghost predicate DispatchHolds(s: State, dispatch: Dispatch) {
    dispatch.Deciding? ==>
      && DistinctIds(dispatch.queue) && |dispatch.verdicts| <= |dispatch.queue|
      && (forall id :: id in dispatch.queue ==> id in s.messages)
      && (forall i :: 0 <= i < |dispatch.verdicts| ==>
            dispatch.verdicts[i].id == dispatch.queue[i] && RightWhenGiven(s, dispatch.verdicts[i]))
  }

  ghost predicate Inv(s: State) {
    && (forall user :: Consistent((user, MarketingEmail), CellFor(s, user)))
    && (forall d :: d in s.dispatches ==> DispatchHolds(s, s.dispatches[d]))
  }

  lemma StepKeepsConsents(s: State, step: Step)
    requires Inv(s)
    ensures forall user :: Consistent((user, MarketingEmail), CellFor(Apply(s, step), user))
  {
    var s' := Apply(s, step);
    forall user ensures Consistent((user, MarketingEmail), CellFor(s', user)) {
      if step.Requesting? && step.user == user {
        ServeKeepsConsistent((user, MarketingEmail), CellFor(s, user), step.request, step.now);
      } else {
        assert CellFor(s', user) == CellFor(s, user);
      }
    }
  }

  /** Only a consent request of the user changes the user's log, and it only adds to it. */
  lemma LogGrows(s: State, step: Step, user: int)
    ensures Log(s, user) <= Log(Apply(s, step), user)
    ensures Log(Apply(s, step), user) != Log(s, user) ==> step.Requesting? && step.user == user
  {
  }

  lemma MessagesStay(s: State, step: Step, id: int)
    requires id in s.messages
    ensures id in Apply(s, step).messages && Apply(s, step).messages[id].userId == s.messages[id].userId
  {
  }

  lemma VerdictStaysRight(s: State, step: Step, v: Verdict)
    requires RightWhenGiven(s, v)
    ensures RightWhenGiven(Apply(s, step), v)
  {
    var user := s.messages[v.id].userId;
    MessagesStay(s, step, v.id);
    LogGrows(s, step, user);
    assert Log(Apply(s, step), user)[..v.seen] == Log(s, user)[..v.seen];
  }

  lemma VerdictIsRight(s: State, id: int)
    requires Inv(s) && id in s.messages
    ensures RightWhenGiven(s, VerdictOn(s, id))
  {
    var user := s.messages[id].userId;
    GateReadsTheLog((user, MarketingEmail), CellFor(s, user), CURRENT_POLICY_VERSION);
    assert Log(s, user)[..|Log(s, user)|] == Log(s, user);
  }

  lemma DispatchStaysRight(s: State, step: Step, dispatch: Dispatch)
    requires DispatchHolds(s, dispatch)
    ensures DispatchHolds(Apply(s, step), dispatch)
  {
    if dispatch.Deciding? {
      forall id | id in dispatch.queue ensures id in Apply(s, step).messages {
        MessagesStay(s, step, id);
      }
      forall i | 0 <= i < |dispatch.verdicts| ensures RightWhenGiven(Apply(s, step), dispatch.verdicts[i]) {
        VerdictStaysRight(s, step, dispatch.verdicts[i]);
      }
    }
  }

  lemma JudgeKeepsDispatch(s: State, d: int)
    requires Inv(s) && IsDeciding(s, d)
    ensures DispatchHolds(Judged(s, d), Judged(s, d).dispatches[d])
  {
    var dispatch, s' := s.dispatches[d], Judged(s, d);
    assert DispatchHolds(s, dispatch);
    DispatchStaysRight(s, Judge(d), dispatch);
    if |dispatch.verdicts| < |dispatch.queue| {
      var id := dispatch.queue[|dispatch.verdicts|];
      VerdictIsRight(s, id);
      VerdictStaysRight(s, Judge(d), VerdictOn(s, id));
    }
  }

  lemma StepKeepsInv(s: State, step: Step)
    requires Inv(s)
    ensures Inv(Apply(s, step))
  {
    var s' := Apply(s, step);
    StepKeepsConsents(s, step);
    forall d | d in s'.dispatches ensures DispatchHolds(s', s'.dispatches[d]) {
      if d in s.dispatches && s'.dispatches[d] == s.dispatches[d] {
        DispatchStaysRight(s, step, s.dispatches[d]);
      } else if step.Judge? {
        JudgeKeepsDispatch(s, step.dispatch);
      }
    }
  }

  lemma {:induction false} RunKeepsInv(steps: seq<Step>)
    ensures Inv(After(steps))
  {
    if steps != [] {
      RunKeepsInv(steps[..|steps| - 1]);
      StepKeepsInv(After(steps[..|steps| - 1]), steps[|steps| - 1]);
    }
  }

  // ---------- What a commit writes ----------

  lemma {:induction false} FindListed(verdicts: seq<Verdict>, id: int)
    ensures Find(verdicts, id).Some? <==> exists i :: 0 <= i < |verdicts| && verdicts[i].id == id
    ensures Find(verdicts, id).Some? ==> Find(verdicts, id).value in verdicts && Find(verdicts, id).value.id == id
  {
    if verdicts != [] {
      FindListed(verdicts[..|verdicts| - 1], id);
      assert verdicts == verdicts[..|verdicts| - 1] + [verdicts[|verdicts| - 1]];
    }
  }

  /** In a batch that can commit, every message of the queue has its verdict, and no other message has one. */
  lemma BatchIsJudged(s: State, d: int, id: int)
    requires Inv(s) && CanCommit(s, d)
    ensures var dispatch := s.dispatches[d];
            && (Find(dispatch.verdicts, id).Some? <==> id in dispatch.queue)
            && (id in dispatch.queue ==>
                  && id in s.messages && Find(dispatch.verdicts, id).value.id == id
                  && RightWhenGiven(s, Find(dispatch.verdicts, id).value))
  {
    var dispatch := s.dispatches[d];
    assert DispatchHolds(s, dispatch);
    FindListed(dispatch.verdicts, id);
    if id in dispatch.queue {
      var i :| 0 <= i < |dispatch.queue| && dispatch.queue[i] == id;
      assert dispatch.verdicts[i].id == id;
    }
  }

  /** A verdict on the message is recorded, with the log it saw. */
  predicate HasVerdict(s: State, d: int, id: int) {
    && IsDeciding(s, d) && id in s.messages
    && var v := Find(s.dispatches[d].verdicts, id); v.Some? && v.value.seen <= |Log(s, s.messages[id].userId)|
  }

  /** The user's log as the verdict on the message saw it. */
  function AtVerdict(s: State, d: int, id: int): seq<Entry>
    requires HasVerdict(s, d, id)
  {
    Log(s, s.messages[id].userId)[..Find(s.dispatches[d].verdicts, id).value.seen]
  }

  /** The entries that it has gained since. */
  function Since(s: State, d: int, id: int): seq<Entry>
    requires HasVerdict(s, d, id)
  {
    Log(s, s.messages[id].userId)[Find(s.dispatches[d].verdicts, id).value.seen..]
  }

  ghost predicate EndsInRevoke(log: seq<Entry>) {
    log != [] && log[|log| - 1].action.Revoke?
  }

  /**
   * A commit settles the whole batch with one timestamp, by the log each verdict saw, and touches
   * no other message. A message goes SENT while its user's log ends in a REVOKE iff its verdict
   * saw a current GRANT and the last entry since the verdict is a REVOKE.
   */
  lemma CommitOutcome(steps: seq<Step>, d: int, id: int)
    requires CanCommit(After(steps), d) && id in After(steps).messages
    ensures var s := After(steps);
            var m, m' := s.messages[id], Apply(s, Commit(d)).messages[id];
            if id in s.dispatches[d].queue then
              && HasVerdict(s, d, id)
              && m' == m.(status := m'.status, processedAt := Some(s.dispatches[d].now))
              && (m'.status.Sent? <==> LastIsCurrentGrant(AtVerdict(s, d, id)))
              && (m'.status.Skipped? <==> !LastIsCurrentGrant(AtVerdict(s, d, id)))
              && (m'.status.Sent? && EndsInRevoke(Log(s, m.userId))
                  <==> LastIsCurrentGrant(AtVerdict(s, d, id)) && EndsInRevoke(Since(s, d, id)))
            else m' == m
  {
    var s := After(steps);
    RunKeepsInv(steps);
    BatchIsJudged(s, d, id);
    if id in s.dispatches[d].queue {
      LastOfSplit(Log(s, s.messages[id].userId), Find(s.dispatches[d].verdicts, id).value.seen);
    }
  }

  lemma LastOfSplit(log: seq<Entry>, n: nat)
    requires n <= |log|
    ensures LastIsCurrentGrant(log[..n]) ==> (EndsInRevoke(log) <==> EndsInRevoke(log[n..]))
  {
  }

  /** Only consent requests between verdict and commit make a difference: without one, sent means granted now. */
  lemma QuietCommitFollowsLog(steps: seq<Step>, d: int, id: int)
    requires CanCommit(After(steps), d) && id in After(steps).messages && id in After(steps).dispatches[d].queue
    requires HasVerdict(After(steps), d, id) && Since(After(steps), d, id) == []
    ensures var s := After(steps);
            Apply(s, Commit(d)).messages[id].status.Sent? <==> LastIsCurrentGrant(Log(s, s.messages[id].userId))
  {
    CommitOutcome(steps, d, id);
    var s := After(steps);
    assert AtVerdict(s, d, id) == Log(s, s.messages[id].userId);
  }

  /** A dispatch whose gate or commit fails leaves every message and consent as it was. */
  lemma FailedDispatchChangesNothing(s: State, d: int)
    requires IsDeciding(s, d)
    ensures Apply(s, Fail(d)) == s.(dispatches := s.dispatches[d := Failed])
    ensures Apply(Apply(s, Fail(d)), Commit(d)) == Apply(s, Fail(d))
  {
  }

  // ---------- Overlapping dispatches ----------

  /** A settled message changes exactly when a dispatch that had judged it too commits something else. */
  lemma ResettledIff(steps: seq<Step>, step: Step, id: int)
    requires id in After(steps).messages && !After(steps).messages[id].status.Queued?
    ensures var s := After(steps);
            Apply(s, step).messages[id] != s.messages[id]
            <==> && step.Commit? && CanCommit(s, step.dispatch) && id in s.dispatches[step.dispatch].queue
                 && var v := Find(s.dispatches[step.dispatch].verdicts, id);
                    v.Some? && (s.messages[id].status != (if v.value.allowed then Sent else Skipped)
                                || s.messages[id].processedAt != Some(s.dispatches[step.dispatch].now))
  {
    RunKeepsInv(steps);
    if step.Commit? && CanCommit(After(steps), step.dispatch) {
      BatchIsJudged(After(steps), step.dispatch, id);
    }
  }

  ghost predicate NobodyDeciding(s: State) {
    forall d :: d in s.dispatches ==> !s.dispatches[d].Deciding?
  }

  /** A dispatch fetches only while no other is deciding. */
  ghost predicate NoOverlap(s: State, step: Step) {
    step.Fetch? ==> NobodyDeciding(s)
  }

  ghost predicate StillQueued(s: State, queue: seq<int>) {
    forall id :: id in queue ==> id in s.messages && s.messages[id].status.Queued?
  }

  ghost predicate OneAtATime(s: State) {
    && (forall d, e :: IsDeciding(s, d) && IsDeciding(s, e) ==> d == e)
    && (forall d :: IsDeciding(s, d) ==> StillQueued(s, s.dispatches[d].queue))
  }

  lemma CommitAlone(s: State, d: int)
    requires Inv(s) && OneAtATime(s) && CanCommit(s, d)
    ensures NobodyDeciding(Apply(s, Commit(d)))
    ensures forall id :: id in s.messages && !s.messages[id].status.Queued? ==>
              Apply(s, Commit(d)).messages[id] == s.messages[id]
  {
    assert StillQueued(s, s.dispatches[d].queue);
    forall id | id in s.messages && !s.messages[id].status.Queued?
      ensures Apply(s, Commit(d)).messages[id] == s.messages[id]
    {
      BatchIsJudged(s, d, id);
    }
    var s' := Apply(s, Commit(d));
    forall e | e in s'.dispatches ensures !s'.dispatches[e].Deciding? {
      assert IsDeciding(s', e) ==> IsDeciding(s, e) && IsDeciding(s, d);
    }
  }

  lemma FetchAlone(s: State, step: Step)
    requires OneAtATime(s) && step.Fetch? && NobodyDeciding(s)
    ensures OneAtATime(Apply(s, step))
  {
    assert ReturnsQueue(s, step.queue) ==> StillQueued(s, step.queue);
  }

  /** A step that neither fetches nor commits leaves every queue as it is, queued. */
  lemma OthersKeepQueues(s: State, step: Step)
    requires OneAtATime(s) && !step.Fetch? && !step.Commit?
    ensures OneAtATime(Apply(s, step))
    ensures forall id :: id in s.messages ==> Apply(s, step).messages[id] == s.messages[id]
  {
    var s' := Apply(s, step);
    forall d | IsDeciding(s', d) ensures IsDeciding(s, d) && StillQueued(s', s'.dispatches[d].queue) {
      assert IsDeciding(s, d) && StillQueued(s, s.dispatches[d].queue);
      assert s'.dispatches[d].queue == s.dispatches[d].queue;
    }
  }

  lemma NoOverlapKeepsQueues(s: State, step: Step)
    requires Inv(s) && OneAtATime(s) && NoOverlap(s, step)
    ensures OneAtATime(Apply(s, step))
    ensures forall id :: id in s.messages && !s.messages[id].status.Queued? ==>
              Apply(s, step).messages[id] == s.messages[id]
  {
    match step
    case Commit(d) =>
      if CanCommit(s, d) {
        CommitAlone(s, d);
      }
    case Fetch(_, _, _) => FetchAlone(s, step);
    case _ => OthersKeepQueues(s, step);
  }

  ghost predicate NoOverlapAt(steps: seq<Step>, i: nat)
    requires i < |steps|
  {
    NoOverlap(After(steps[..i]), steps[i])
  }

  lemma {:induction false} RunsOneAtATime(steps: seq<Step>)
    requires forall i :: 0 <= i < |steps| ==> NoOverlapAt(steps, i)
    ensures OneAtATime(After(steps))
  {
    if steps != [] {
      var n := |steps| - 1;
      forall i | 0 <= i < n ensures NoOverlapAt(steps[..n], i) {
        assert steps[..n][..i] == steps[..i] && NoOverlapAt(steps, i);
      }
      RunsOneAtATime(steps[..n]);
      RunKeepsInv(steps[..n]);
      assert NoOverlapAt(steps, n);
      NoOverlapKeepsQueues(After(steps[..n]), steps[n]);
    }
  }

  /** Without overlapping dispatches, SENT and SKIPPED are final, however consents race. */
  lemma SettledIsFinalWithoutOverlap(steps: seq<Step>, step: Step, id: int)
    requires forall i :: 0 <= i < |steps| ==> NoOverlapAt(steps, i)
    requires NoOverlap(After(steps), step)
    requires id in After(steps).messages && !After(steps).messages[id].status.Queued?
    ensures Apply(After(steps), step).messages[id] == After(steps).messages[id]
  {
    RunsOneAtATime(steps);
    RunKeepsInv(steps);
    NoOverlapKeepsQueues(After(steps), step);
  }

  // ---------- It does happen ----------

  lemma AfterNext(steps: seq<Step>, n: nat)
    requires n < |steps|
    ensures After(steps[..n + 1]) == Apply(After(steps[..n]), steps[n])
  {
    assert steps[..n + 1][..n] == steps[..n];
  }

  const BATCH: seq<int> := [5]

  const GRANT := GrantRequest(CURRENT_POLICY_VERSION, "api")

  /** A user grants, a message is queued and judged, the user revokes, and then the batch commits. */
  const REVOKED_MEANWHILE := [
    Requesting(1, GRANT, 0), Enqueue(5, 1, "sale"), Fetch(7, 2, BATCH), Judge(7),
    Requesting(1, RevokeRequest("api"), 3), Commit(7)]

  const KEY: Key := (1, MarketingEmail)
  const GRANTED := Entry(KEY, Grant, CURRENT_POLICY_VERSION, "api", 0)
  const REVOKED := Entry(KEY, Revoke, CURRENT_POLICY_VERSION, "api", 3)
  const GRANTED_ROW := Row(Granted, CURRENT_POLICY_VERSION, Some(0), None, 0, "api")
  const QUEUED := Message(1, "sale", Queued, None)

  const ONE_QUEUED := State(map[1 := Cell(Some(GRANTED_ROW), [GRANTED])], map[5 := QUEUED], map[])

  lemma GrantedAndQueued()
    ensures After(REVOKED_MEANWHILE[..2]) == ONE_QUEUED
  {
    var steps, granted := REVOKED_MEANWHILE, Cell(Some(GRANTED_ROW), [GRANTED]);
    assert steps[..0] == [] && steps[1] == Enqueue(5, 1, "sale");
    AfterNext(steps, 0);
    assert Serve(Cell(None, []), KEY, GRANT, 0) == granted;
    assert After(steps[..1]) == State(map[1 := granted], map[], map[]);
    AfterNext(steps, 1);
    EnqueueAdds(After(steps[..1]));
  }

  lemma EnqueueAdds(s: State)
    requires s.messages == map[]
    ensures Apply(s, Enqueue(5, 1, "sale")) == s.(messages := map[5 := QUEUED])
  {
    assert s.messages[5 := QUEUED] == map[5 := QUEUED];
  }

  lemma OneIsReturned()
    ensures ReturnsQueue(ONE_QUEUED, BATCH)
  {
    forall id ensures id in BATCH <==> id in Queue(ONE_QUEUED) {
      assert id in ONE_QUEUED.messages <==> id == 5;
    }
  }

  const FETCHED7 := ONE_QUEUED.(dispatches := map[7 := Deciding(2, BATCH, [])])
  const JUDGED7 := ONE_QUEUED.(dispatches := map[7 := Deciding(2, BATCH, [Verdict(5, true, 1)])])

  lemma FirstFetch()
    ensures Apply(ONE_QUEUED, Fetch(7, 2, BATCH)) == FETCHED7
  {
    OneIsReturned();
    assert ONE_QUEUED.dispatches[7 := Deciding(2, BATCH, [])] == FETCHED7.dispatches;
  }

  lemma FirstVerdict()
    ensures Apply(FETCHED7, Judge(7)) == JUDGED7
  {
    var verdict := Verdict(5, true, 1);
    assert VerdictOn(FETCHED7, 5) == verdict && [] + [verdict] == [verdict];
    assert FETCHED7.dispatches[7 := Deciding(2, BATCH, [Verdict(5, true, 1)])] == JUDGED7.dispatches;
  }

  lemma GrantedAndJudged()
    ensures After(REVOKED_MEANWHILE[..4]) == JUDGED7
  {
    GrantedAndQueued();
    FirstFetch();
    FirstVerdict();
    assert REVOKED_MEANWHILE[2] == Fetch(7, 2, BATCH) && REVOKED_MEANWHILE[3] == Judge(7);
    AfterNext(REVOKED_MEANWHILE, 2);
    AfterNext(REVOKED_MEANWHILE, 3);
  }

  /** The message is SENT, although the log ends in a REVOKE. */
  lemma SentAfterRevoke()
    ensures var s := After(REVOKED_MEANWHILE);
            && 5 in s.messages && s.messages[5] == Message(1, "sale", Sent, Some(2))
            && Log(s, 1) == [GRANTED, REVOKED]
  {
    var steps := REVOKED_MEANWHILE;
    GrantedAndJudged();
    AfterNext(steps, 4);
    AfterNext(steps, 5);
    assert steps[..6] == steps;
    assert Log(After(steps[..5]), 1) == [GRANTED] + [REVOKED];
  }

  /** A second dispatch fetches the message too, and judges it after the revoke. */
  const OVERLAP := [Fetch(8, 4, BATCH), Requesting(1, RevokeRequest("api"), 3), Judge(8), Commit(7), Commit(8)]

  const SETTLED_TWICE := REVOKED_MEANWHILE[..4] + OVERLAP

  lemma SecondFetch()
    ensures Apply(JUDGED7, OVERLAP[0]) == JUDGED7.(dispatches := JUDGED7.dispatches[8 := Deciding(4, BATCH, [])])
  {
    OneIsReturned();
    assert Queue(JUDGED7) == Queue(ONE_QUEUED);
    assert ReturnsQueue(JUDGED7, BATCH);
  }

  lemma RevokeThenJudge(s: State)
    requires s == JUDGED7.(dispatches := JUDGED7.dispatches[8 := Deciding(4, BATCH, [])])
    ensures var t := Apply(Apply(s, OVERLAP[1]), OVERLAP[2]);
            && t.messages == map[5 := QUEUED]
            && t.dispatches == s.dispatches[8 := Deciding(4, BATCH, [Verdict(5, false, 2)])]
  {
    var revoked := Apply(s, OVERLAP[1]);
    assert Log(revoked, 1) == [GRANTED] + [REVOKED];
    var verdict := Verdict(5, false, 2);
    assert VerdictOn(revoked, 5) == verdict && [] + [verdict] == [verdict];
  }

  lemma BothJudged()
    ensures var s := After(SETTLED_TWICE[..7]);
            && s.messages == map[5 := QUEUED]
            && s.dispatches == JUDGED7.dispatches[8 := Deciding(4, BATCH, [Verdict(5, false, 2)])]
  {
    AfterOverlap();
    SecondFetch();
    RevokeThenJudge(Apply(JUDGED7, OVERLAP[0]));
  }

  lemma OverlapSteps()
    ensures |SETTLED_TWICE| == 9 && SETTLED_TWICE[..4] == REVOKED_MEANWHILE[..4]
    ensures forall i :: 0 <= i < 5 ==> SETTLED_TWICE[4 + i] == OVERLAP[i]
  {
  }

  lemma AfterOverlap()
    ensures After(SETTLED_TWICE[..7]) == Apply(Apply(Apply(JUDGED7, OVERLAP[0]), OVERLAP[1]), OVERLAP[2])
  {
    OverlapSteps();
    GrantedAndJudged();
    ThreeMore(SETTLED_TWICE, OVERLAP);
  }

  lemma ThreeMore(steps: seq<Step>, overlap: seq<Step>)
    requires |steps| == 9 && |overlap| == 5 && forall i :: 0 <= i < 5 ==> steps[4 + i] == overlap[i]
    ensures After(steps[..7]) == Apply(Apply(Apply(After(steps[..4]), overlap[0]), overlap[1]), overlap[2])
  {
    AfterNext(steps, 4);
    AfterNext(steps, 5);
    AfterNext(steps, 6);
    assert steps[4] == overlap[0] && steps[4 + 1] == overlap[1] && steps[4 + 2] == overlap[2];
  }

  lemma CommitSettles(s: State, d: int, now: int, verdict: Verdict, m: Message)
    requires s.messages == map[5 := m] && verdict.id == 5
    requires d in s.dispatches && s.dispatches[d] == Deciding(now, BATCH, [verdict])
    ensures Apply(s, Commit(d)).messages
            == map[5 := m.(status := if verdict.allowed then Sent else Skipped, processedAt := Some(now))]
    ensures forall e :: e in s.dispatches && e != d ==>
              e in Apply(s, Commit(d)).dispatches && Apply(s, Commit(d)).dispatches[e] == s.dispatches[e]
  {
    assert Find([verdict], 5) == Some(verdict);
  }

  /** It is SENT by the first commit and SKIPPED by the second. */
  lemma SentThenSkipped()
    ensures After(SETTLED_TWICE[..8]).messages == map[5 := Message(1, "sale", Sent, Some(2))]
    ensures After(SETTLED_TWICE).messages == map[5 := Message(1, "sale", Skipped, Some(4))]
  {
    var steps := SETTLED_TWICE;
    BothJudged();
    AfterNext(steps, 7);
    AfterNext(steps, 8);
    assert steps[..9] == steps;
    CommitSettles(After(steps[..7]), 7, 2, Verdict(5, true, 1), QUEUED);
    CommitSettles(After(steps[..8]), 8, 4, Verdict(5, false, 2), Message(1, "sale", Sent, Some(2)));
  }
}

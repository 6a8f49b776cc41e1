/**
 * What a message, and a whole batch, preserve: the store's integrity, the
 * service-call lifecycle invariant, the forward-only movement of call
 * statuses, the append-only message log and the order of the outcomes.
 */
module Lifecycle {
  import opened Wrappers
  import opened Keywords
  import opened Store
  import opened Inbound

  lemma SameCallIds(cs: seq<ServiceCall>, cs': seq<ServiceCall>, asg: seq<Assignment>)
    requires CallIds(cs) == CallIds(cs')
    ensures CallsKeyed(cs) ==> CallsKeyed(cs')
    ensures AssignmentsLinked(asg, cs) ==> AssignmentsLinked(asg, cs')
  {
    assert forall k :: 0 <= k < |cs| ==> cs[k].id == CallIds(cs)[k] == CallIds(cs')[k] == cs'[k].id;
  }

  lemma AcceptCallPreservesWellFormed(st: State, p: Professional, m: RawMessage, rd: Reading)
    requires WellFormed(st)
    ensures WellFormed(AcceptCall(st, p, m, rd).state)
  {
    match FindOpenCall(st.calls, ProfessionName(st.professions, p.professionId)) {
      case None =>
      case Some(k) =>
        var c := st.calls[k];
        var cs' := SetCallStatus(st.calls, c.id, Assigned);
        var asg' := st.assignments + [Assignment(st.nextAssignmentId, c.id, p.id, AssignmentStatus.Accepted)];
        assert c.id in CallIds(st.calls) by { assert CallIds(st.calls)[k] == c.id; }
        assert AssignmentsLinked(asg', st.calls);
        SameCallIds(st.calls, cs', asg');
        assert AssignmentsKeyed(asg', st.nextAssignmentId + 1);
    }
  }

  lemma CompleteCallPreservesWellFormed(st: State, p: Professional, m: RawMessage, rd: Reading)
    requires WellFormed(st)
    ensures WellFormed(CompleteCall(st, p, m, rd).state)
  {
    match FindActiveAssignment(st.assignments, p.id) {
      case None =>
      case Some(k) =>
        var a := st.assignments[k];
        var asg' := SetAssignmentStatus(st.assignments, a.id, AssignmentStatus.Completed);
        var cs' := SetCallStatus(st.calls, a.callId, CallStatus.Completed);
        assert AssignmentsLinked(asg', st.calls);
        SameCallIds(st.calls, cs', asg');
        assert AssignmentsKeyed(asg', st.nextAssignmentId);
    }
  }

  /** Writing the log entry keeps the store's integrity and leaves the lifecycle alone. */
  lemma LoggingKeepsInvariants(st: State, m: RawMessage, rd: Reading)
    ensures WellFormed(st) ==> WellFormed(Logged(st, m, rd))
    ensures LifecycleConsistent(Logged(st, m, rd)) == LifecycleConsistent(st)
  {
    var logged := Logged(st, m, rd);
    if WellFormed(st) {
      assert MessagesKeyed(logged.messages, logged.nextMessageId);
    }
  }

  /** A message keeps every primary key unique and every assignment linked to a call. */
  lemma StepPreservesWellFormed(st: State, m: RawMessage, rd: Reading)
    requires WellFormed(st)
    ensures WellFormed(Step(st, m, rd).state)
  {
    var logged := Logged(st, m, rd);
    LoggingKeepsInvariants(st, m, rd);
    match FindProfessionalByPhone(logged.professionals, m.from)
    case None =>
    case Some(i) =>
      var p := logged.professionals[i];
      match rd.keyword(BodyText(m))
      case AcceptKeyword => AcceptCallPreservesWellFormed(logged, p, m, rd);
      case CompleteKeyword => CompleteCallPreservesWellFormed(logged, p, m, rd);
      case NoKeyword =>
  }

  lemma AcceptCallPreservesLifecycle(st: State, p: Professional, m: RawMessage, rd: Reading)
    requires WellFormed(st) && LifecycleConsistent(st)
    ensures LifecycleConsistent(AcceptCall(st, p, m, rd).state)
  {
    match FindOpenCall(st.calls, ProfessionName(st.professions, p.professionId)) {
      case None =>
      case Some(k) =>
        var c := st.calls[k];
        var asg := st.assignments;
        assert forall j :: 0 <= j < |asg| && asg[j].status == AssignmentStatus.Accepted ==> asg[j].callId != c.id;
    }
  }

  lemma CompleteCallPreservesLifecycle(st: State, p: Professional, m: RawMessage, rd: Reading)
    requires WellFormed(st) && LifecycleConsistent(st)
    ensures LifecycleConsistent(CompleteCall(st, p, m, rd).state)
  {
  }

  /**
   * A message keeps the lifecycle invariant: a call with an ACCEPTED
   * assignment is not OPEN, and no call has two ACCEPTED assignments.
   */
  lemma StepPreservesLifecycle(st: State, m: RawMessage, rd: Reading)
    requires WellFormed(st) && LifecycleConsistent(st)
    ensures LifecycleConsistent(Step(st, m, rd).state)
  {
    var logged := Logged(st, m, rd);
    LoggingKeepsInvariants(st, m, rd);
    match FindProfessionalByPhone(logged.professionals, m.from)
    case None =>
    case Some(i) =>
      var p := logged.professionals[i];
      match rd.keyword(BodyText(m))
      case AcceptKeyword => AcceptCallPreservesLifecycle(logged, p, m, rd);
      case CompleteKeyword => CompleteCallPreservesLifecycle(logged, p, m, rd);
      case NoKeyword =>
  }

  /**
   * Call statuses only move forward: a message changes no call's id or any
   * field but its status, and never lowers a status's rank.
   */
  lemma StepMovesCallsForward(st: State, m: RawMessage, rd: Reading)
    requires WellFormed(st)
    ensures var cs' := Step(st, m, rd).state.calls;
      |cs'| == |st.calls|
      && forall k :: 0 <= k < |st.calls| ==>
           cs'[k] == st.calls[k].(status := cs'[k].status) && Rank(st.calls[k].status) <= Rank(cs'[k].status)
  {
    match FindProfessionalByPhone(st.professionals, m.from)
    case None =>
    case Some(i) =>
      var p := st.professionals[i];
      if rd.keyword(BodyText(m)) == AcceptKeyword {
        match FindOpenCall(st.calls, ProfessionName(st.professions, p.professionId))
        case None =>
        case Some(k) =>
          AcceptTransition(st, m, rd, i, k);
      }
  }

  lemma {:induction false} RunPreservesWellFormed(st: State, batch: seq<RawMessage>, rd: Reading)
    requires WellFormed(st)
    ensures WellFormed(Run(st, batch, rd).state)
    decreases |batch|
  {
    if batch != [] {
      var init := batch[..|batch| - 1];
      RunPreservesWellFormed(st, init, rd);
      StepPreservesWellFormed(Run(st, init, rd).state, batch[|batch| - 1], rd);
    }
  }

  lemma {:induction false} RunPreservesLifecycle(st: State, batch: seq<RawMessage>, rd: Reading)
    requires WellFormed(st) && LifecycleConsistent(st)
    ensures LifecycleConsistent(Run(st, batch, rd).state)
    decreases |batch|
  {
    if batch != [] {
      var init := batch[..|batch| - 1];
      RunPreservesLifecycle(st, init, rd);
      RunPreservesWellFormed(st, init, rd);
      StepPreservesLifecycle(Run(st, init, rd).state, batch[|batch| - 1], rd);
    }
  }

  lemma {:induction false} RunMovesCallsForward(st: State, batch: seq<RawMessage>, rd: Reading)
    requires WellFormed(st)
    ensures var cs' := Run(st, batch, rd).state.calls;
      |cs'| == |st.calls|
      && forall k :: 0 <= k < |st.calls| ==>
           cs'[k] == st.calls[k].(status := cs'[k].status) && Rank(st.calls[k].status) <= Rank(cs'[k].status)
    decreases |batch|
  {
    if batch != [] {
      var init := batch[..|batch| - 1];
      RunMovesCallsForward(st, init, rd);
      RunPreservesWellFormed(st, init, rd);
      StepMovesCallsForward(Run(st, init, rd).state, batch[|batch| - 1], rd);
    }
  }

  /**
   * The log grows by exactly one entry per message, in order, whatever
   * happens to the message afterwards, and no earlier entry is changed.
   */
  lemma {:induction false} RunAppendsLog(st: State, batch: seq<RawMessage>, rd: Reading)
    ensures var ms := Run(st, batch, rd).state.messages;
      |ms| == |st.messages| + |batch|
      && (forall i :: 0 <= i < |st.messages| ==> ms[i] == st.messages[i])
      && forall i :: 0 <= i < |batch| ==> ms[|st.messages| + i] == LogEntry(batch[i], st.nextMessageId + i, rd)
    decreases |batch|
  {
    if batch != [] {
      var init := batch[..|batch| - 1];
      RunAppendsLog(st, init, rd);
      var prev := Run(st, init, rd).state;
      var ms := Run(st, batch, rd).state.messages;
      assert ms == prev.messages + [LogEntry(batch[|batch| - 1], prev.nextMessageId, rd)];
      forall i | 0 <= i < |batch|
        ensures ms[|st.messages| + i] == LogEntry(batch[i], st.nextMessageId + i, rd)
      {
        if i < |init| {
          assert batch[i] == init[i];
          assert ms[|st.messages| + i] == prev.messages[|st.messages| + i];
        }
      }
    }
  }

  /** The i-th outcome is about the i-th message: its phone, name, text and intent. */
  lemma {:induction false} RunOutcomesFollowInput(st: State, batch: seq<RawMessage>, rd: Reading)
    ensures var os := Run(st, batch, rd).outcomes;
      |os| == |batch|
      && forall i :: 0 <= i < |batch| ==>
           os[i].from == batch[i].from && os[i].name == SenderName(batch[i])
           && os[i].message == BodyText(batch[i]) && os[i].intent == AnalyzeIntent(rd, BodyText(batch[i]))
    decreases |batch|
  {
    if batch != [] {
      var init := batch[..|batch| - 1];
      RunOutcomesFollowInput(st, init, rd);
      var prev := Run(st, init, rd);
      var last := Step(prev.state, batch[|batch| - 1], rd);
      assert Run(st, batch, rd).outcomes == prev.outcomes + [last.outcome];
      assert forall i :: 0 <= i < |init| ==> batch[i] == init[i];
    }
  }
}

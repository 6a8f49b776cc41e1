/**
 * The inbound-message processor of `receive_message`: each reply of a batch
 * is logged, its sender is looked up by phone, and an ACCEPT or COMPLETE
 * keyword drives the service-call lifecycle. `Step` handles one message and
 * `Run` a whole batch, in order; the `Service.Server` methods are proved
 * against them.
 */
module Inbound {
  import opened Wrappers
  import opened Keywords
  import opened Store

  /** One element of the webhook's `messages` array; a key that is absent is `None`. */
  datatype RawMessage = RawMessage(from: string, fromName: Option<string>, body: Option<string>)

  /**
   * The language-model intent classifier: some text, or `None` when the call
   * fails. Nothing else is known about it.
   */
  type Classifier = string -> Option<string>

  /**
   * How the text of a message is read: `intent` is the intent classifier and
   * `keyword` the keyword rules. The server always uses `Keywords.Classify`
   * for the latter (`Standard`); the transition lemmas hold for any rules.
   */
  datatype Reading = Reading(intent: Classifier, keyword: string -> Keyword)

  function Standard(classify: Classifier): Reading {
    Reading(classify, Classify)
  }

  /** What the classifier wrapper answers when the model call fails. */
  const IntentFallback := "An unexpected error occurred. Please try again later."

  /** The 400 answered for an empty or missing `messages` list. */
  const NoMessages := HttpError(400, "No messages found in the request.")

  /** The display name used when a message has no `from_name`. */
  const UnknownName := "Unknown"

  datatype Status = UnknownProfessional | Accepted | NoOpenCalls | Completed | NoActiveAssignments | OtherMessage

  /** The `status` string the source puts in each processed entry. */
  function StatusText(s: Status): string {
    match s
    case UnknownProfessional => "unknown_professional"
    case Accepted => "accepted"
    case NoOpenCalls => "no_open_calls"
    case Completed => "completed"
    case NoActiveAssignments => "no_active_assignments"
    case OtherMessage => "other_message"
  }

  /** The six status strings of the `processed` list tell the outcomes apart. */
  lemma StatusTextDistinct(a: Status, b: Status)
    ensures StatusText(a) == StatusText(b) ==> a == b
  {
  }

  /** One entry of the `processed` list. */
  datatype Outcome = Outcome(
    from: string, name: string, message: string, intent: string, status: Status, serviceCallId: Option<nat>)

  datatype StepResult = StepResult(state: State, outcome: Outcome)
  datatype RunResult = RunResult(state: State, outcomes: seq<Outcome>)

  function SenderName(m: RawMessage): string {
    m.fromName.GetOr(UnknownName)
  }

  function BodyText(m: RawMessage): string {
    m.body.GetOr("")
  }

  /** The classifier wrapper: it never fails, a failed call gives the fallback. */
  function AnalyzeIntent(rd: Reading, text: string): string {
    rd.intent(text).GetOr(IntentFallback)
  }

  /** The log entry written for message `m` under the id `id`. */
  function LogEntry(m: RawMessage, id: nat, rd: Reading): Message {
    Message(id, m.from, SenderName(m), BodyText(m), AnalyzeIntent(rd, BodyText(m)))
  }

  function Report(m: RawMessage, rd: Reading, status: Status, callId: Option<nat>): Outcome {
    Outcome(m.from, SenderName(m), BodyText(m), AnalyzeIntent(rd, BodyText(m)), status, callId)
  }

  /** The store once `m` is written to the message log. */
  function Logged(st: State, m: RawMessage, rd: Reading): State {
    st.(messages := st.messages + [LogEntry(m, st.nextMessageId, rd)], nextMessageId := st.nextMessageId + 1)
  }

  /** The statuses after which the source sends a reply to the professional. */
  predicate Replies(o: Outcome) {
    o.status == Status.Accepted || o.status == NoOpenCalls || o.status == Status.Completed
  }

  /** A professional's ACCEPT: take the first OPEN call of their profession, if there is one. */
  function AcceptCall(st: State, p: Professional, m: RawMessage, rd: Reading): StepResult {
    match FindOpenCall(st.calls, ProfessionName(st.professions, p.professionId))
    case None =>
      StepResult(st.(outbox := st.outbox + [Outgoing(m.from, NoOpenCallsNotice)]),
                 Report(m, rd, NoOpenCalls, None))
    case Some(k) =>
      var c := st.calls[k];
      StepResult(
        st.(assignments := st.assignments + [Assignment(st.nextAssignmentId, c.id, p.id, AssignmentStatus.Accepted)],
            nextAssignmentId := st.nextAssignmentId + 1,
            calls := SetCallStatus(st.calls, c.id, Assigned),
            outbox := st.outbox + [Outgoing(m.from, JobConfirmation(c.title, c.locations, c.date))]),
        Report(m, rd, Status.Accepted, Some(c.id)))
  }

  /** A professional's COMPLETE: close their first ACCEPTED assignment and its call, if there is one. */
  function CompleteCall(st: State, p: Professional, m: RawMessage, rd: Reading): StepResult {
    match FindActiveAssignment(st.assignments, p.id)
    case None => StepResult(st, Report(m, rd, NoActiveAssignments, None))
    case Some(k) =>
      var a := st.assignments[k];
      StepResult(
        st.(assignments := SetAssignmentStatus(st.assignments, a.id, AssignmentStatus.Completed),
            calls := SetCallStatus(st.calls, a.callId, CallStatus.Completed),
            outbox := st.outbox + [Outgoing(m.from, CompletionThanks)]),
        Report(m, rd, Status.Completed, Some(a.callId)))
  }

  /**
   * One message: log it, resolve the sender, and apply the first keyword
   * rule that matches. Whatever happens the log grows by exactly this
   * message's entry, the directory is untouched, and only an accepted or a
   * completed outcome changes calls or assignments.
   */
  function Step(st: State, m: RawMessage, rd: Reading): (r: StepResult)
    ensures r.state.professions == st.professions && r.state.professionals == st.professionals
    ensures r.state.messages == st.messages + [LogEntry(m, st.nextMessageId, rd)]
    ensures r.state.nextMessageId == st.nextMessageId + 1
    ensures r.state.nextProfessionId == st.nextProfessionId && r.state.nextProfessionalId == st.nextProfessionalId
    ensures r.outcome.from == m.from && r.outcome.name == SenderName(m) && r.outcome.message == BodyText(m)
    ensures r.outcome.intent == AnalyzeIntent(rd, BodyText(m))
    ensures r.outcome.status != Status.Accepted && r.outcome.status != Status.Completed ==>
      && r.state.calls == st.calls && r.state.assignments == st.assignments
      && r.state.nextAssignmentId == st.nextAssignmentId
    ensures Replies(r.outcome) ==>
      |r.state.outbox| == |st.outbox| + 1 && r.state.outbox[..|st.outbox|] == st.outbox
      && r.state.outbox[|st.outbox|].to == m.from
    ensures !Replies(r.outcome) ==> r.state.outbox == st.outbox
  {
    var logged := Logged(st, m, rd);
    match FindProfessionalByPhone(logged.professionals, m.from)
    case None => StepResult(logged, Report(m, rd, UnknownProfessional, None))
    case Some(i) =>
      var p := logged.professionals[i];
      match rd.keyword(BodyText(m))
      case AcceptKeyword => AcceptCall(logged, p, m, rd)
      case CompleteKeyword => CompleteCall(logged, p, m, rd)
      case NoKeyword => StepResult(logged, Report(m, rd, OtherMessage, None))
  }

  /**
   * A batch, message after message, each seeing the state the previous one
   * left. There is one outcome per message.
   */
  function Run(st: State, batch: seq<RawMessage>, rd: Reading): (r: RunResult)
    ensures |r.outcomes| == |batch|
    ensures r.state.nextMessageId == st.nextMessageId + |batch|
    ensures r.state.professions == st.professions && r.state.professionals == st.professionals
    decreases |batch|
  {
    if batch == [] then RunResult(st, [])
    else
      var prev := Run(st, batch[..|batch| - 1], rd);
      var s := Step(prev.state, batch[|batch| - 1], rd);
      RunResult(s.state, prev.outcomes + [s.outcome])
  }

  // Which outcome a message gets.

  ghost predicate Registered(st: State, phone: string) {
    exists i :: 0 <= i < |st.professionals| && st.professionals[i].phone == phone
  }

  ghost predicate HasOpenCallFor(st: State, p: Professional) {
    exists k :: 0 <= k < |st.calls| && IsOpenCallFor(st.calls[k], ProfessionName(st.professions, p.professionId))
  }

  ghost predicate HasActiveAssignment(st: State, p: Professional) {
    exists k :: 0 <= k < |st.assignments| && IsActiveAssignmentOf(st.assignments[k], p.id)
  }

  /**
   * The outcome status of a message, case by case: unknown phone; known
   * phone and no keyword; ACCEPT with or without an OPEN call of the sender's
   * profession; COMPLETE with or without an ACCEPTED assignment of the
   * sender. The sender is the first professional with the phone.
   */
  lemma StepStatus(st: State, m: RawMessage, rd: Reading)
    ensures var s := Step(st, m, rd).outcome.status;
      (s == UnknownProfessional <==> !Registered(st, m.from))
      && (Registered(st, m.from) ==>
            var p := st.professionals[FindProfessionalByPhone(st.professionals, m.from).value];
            var k := rd.keyword(BodyText(m));
            (s == OtherMessage <==> k == NoKeyword)
            && (s == Status.Accepted <==> k == AcceptKeyword && HasOpenCallFor(st, p))
            && (s == NoOpenCalls <==> k == AcceptKeyword && !HasOpenCallFor(st, p))
            && (s == Status.Completed <==> k == CompleteKeyword && HasActiveAssignment(st, p))
            && (s == NoActiveAssignments <==> k == CompleteKeyword && !HasActiveAssignment(st, p)))
  {
    match FindProfessionalByPhone(st.professionals, m.from)
    case None =>
    case Some(i) =>
      assert Registered(st, m.from);
      var p := st.professionals[i];
      var prof := ProfessionName(st.professions, p.professionId);
      match FindOpenCall(st.calls, prof) {
        case Some(k) => assert IsOpenCallFor(st.calls[k], prof);
        case None =>
      }
      match FindActiveAssignment(st.assignments, p.id) {
        case Some(k) => assert IsActiveAssignmentOf(st.assignments[k], p.id);
        case None =>
      }
  }

  /**
   * ACCEPT with an OPEN call of the sender's profession: exactly one new
   * ACCEPTED assignment links the sender and the first such call, that call
   * becomes ASSIGNED, no other call changes, the outcome names the call, and
   * one confirmation with the call's title, locations and date goes to the sender.
   */
  lemma AcceptTransition(st: State, m: RawMessage, rd: Reading, i: nat, k: nat)
    requires WellFormed(st)
    requires FindProfessionalByPhone(st.professionals, m.from) == Some(i)
    requires rd.keyword(BodyText(m)) == AcceptKeyword
    requires FindOpenCall(st.calls, ProfessionName(st.professions, st.professionals[i].professionId)) == Some(k)
    ensures var r := Step(st, m, rd);
      r.outcome.status == Status.Accepted && r.outcome.serviceCallId == Some(st.calls[k].id)
      && r.state.assignments
         == st.assignments + [Assignment(st.nextAssignmentId, st.calls[k].id, st.professionals[i].id, AssignmentStatus.Accepted)]
      && r.state.nextAssignmentId == st.nextAssignmentId + 1
      && r.state.calls == st.calls[k := st.calls[k].(status := Assigned)]
      && r.state.outbox
         == st.outbox + [Outgoing(m.from, JobConfirmation(st.calls[k].title, st.calls[k].locations, st.calls[k].date))]
  {
  }

  /**
   * COMPLETE with an ACCEPTED assignment of the sender: the first such
   * assignment becomes COMPLETED, so does the call it links to, nothing else
   * changes, the outcome names the call, and the thanks goes to the sender.
   */
  lemma CompleteTransition(st: State, m: RawMessage, rd: Reading, i: nat, k: nat)
    requires WellFormed(st)
    requires FindProfessionalByPhone(st.professionals, m.from) == Some(i)
    requires rd.keyword(BodyText(m)) == CompleteKeyword
    requires FindActiveAssignment(st.assignments, st.professionals[i].id) == Some(k)
    ensures var r := Step(st, m, rd); var a := st.assignments[k];
      r.outcome.status == Status.Completed && r.outcome.serviceCallId == Some(a.callId)
      && r.state.assignments == st.assignments[k := a.(status := AssignmentStatus.Completed)]
      && r.state.outbox == st.outbox + [Outgoing(m.from, CompletionThanks)]
      && exists c :: 0 <= c < |st.calls| && st.calls[c].id == a.callId
           && r.state.calls == st.calls[c := st.calls[c].(status := CallStatus.Completed)]
  {
    var a := st.assignments[k];
    assert a.callId in CallIds(st.calls);
    var c :| 0 <= c < |st.calls| && CallIds(st.calls)[c] == a.callId;
  }

  /**
   * ACCEPT with no OPEN call of the sender's profession: "no_open_calls", no
   * call or assignment changes, and the sender is told there is no open call.
   */
  lemma AcceptWithoutOpenCall(st: State, m: RawMessage, rd: Reading, i: nat)
    requires FindProfessionalByPhone(st.professionals, m.from) == Some(i)
    requires rd.keyword(BodyText(m)) == AcceptKeyword
    requires var prof := ProfessionName(st.professions, st.professionals[i].professionId);
      forall j :: 0 <= j < |st.calls| ==> !IsOpenCallFor(st.calls[j], prof)
    ensures var r := Step(st, m, rd);
      r.outcome.status == NoOpenCalls && r.outcome.serviceCallId == None
      && r.state.calls == st.calls && r.state.assignments == st.assignments
      && r.state.outbox == st.outbox + [Outgoing(m.from, NoOpenCallsNotice)]
  {
    var prof := ProfessionName(st.professions, st.professionals[i].professionId);
    assert FindOpenCall(st.calls, prof).None?;
  }

  /** COMPLETE with no ACCEPTED assignment of the sender: "no_active_assignments", and nothing but the log changes. */
  lemma CompleteWithoutActiveAssignment(st: State, m: RawMessage, rd: Reading, i: nat)
    requires FindProfessionalByPhone(st.professionals, m.from) == Some(i)
    requires rd.keyword(BodyText(m)) == CompleteKeyword
    requires forall j :: 0 <= j < |st.assignments| ==> !IsActiveAssignmentOf(st.assignments[j], st.professionals[i].id)
    ensures var r := Step(st, m, rd);
      r.outcome.status == NoActiveAssignments && r.outcome.serviceCallId == None
      && r.state == st.(messages := st.messages + [LogEntry(m, st.nextMessageId, rd)],
                        nextMessageId := st.nextMessageId + 1)
  {
    var pid := st.professionals[i].id;
    assert FindActiveAssignment(st.assignments, pid).None?;
  }

  /** A batch of one message, and of the same message twice. */
  lemma RunOnceAndTwice(st: State, m: RawMessage, rd: Reading)
    ensures var first := Step(st, m, rd); var second := Step(first.state, m, rd);
      Run(st, [m], rd) == RunResult(first.state, [first.outcome])
      && Run(st, [m, m], rd) == RunResult(second.state, [first.outcome, second.outcome])
  {
    assert [m, m][..1] == [m];
    assert [m][..0] == [];
  }

  /** Replaying an ACCEPT against the only OPEN call of the profession: "accepted", then "no_open_calls". */
  lemma ReplayAccept(st: State, m: RawMessage, rd: Reading, i: nat, k: nat)
    requires WellFormed(st)
    requires FindProfessionalByPhone(st.professionals, m.from) == Some(i)
    requires rd.keyword(BodyText(m)) == AcceptKeyword
    requires var prof := ProfessionName(st.professions, st.professionals[i].professionId);
      k < |st.calls| && IsOpenCallFor(st.calls[k], prof)
      && forall j :: 0 <= j < |st.calls| && j != k ==> !IsOpenCallFor(st.calls[j], prof)
    ensures var once := Run(st, [m], rd); var twice := Run(st, [m, m], rd);
      once.outcomes[0].status == Status.Accepted && once.outcomes[0].serviceCallId == Some(st.calls[k].id)
      && twice.outcomes[0] == once.outcomes[0] && twice.outcomes[1].status == NoOpenCalls
      && twice.state.calls == once.state.calls && twice.state.assignments == once.state.assignments
  {
    var prof := ProfessionName(st.professions, st.professionals[i].professionId);
    RunOnceAndTwice(st, m, rd);
    assert FindOpenCall(st.calls, prof) == Some(k);
    AcceptTransition(st, m, rd, i, k);
    var after := Step(st, m, rd).state;
    assert after.calls == st.calls[k := st.calls[k].(status := Assigned)];
    AcceptWithoutOpenCall(after, m, rd, i);
  }

  /** Replaying a COMPLETE for the sender's only ACCEPTED assignment: "completed", then "no_active_assignments". */
  lemma ReplayComplete(st: State, m: RawMessage, rd: Reading, i: nat, k: nat)
    requires WellFormed(st)
    requires FindProfessionalByPhone(st.professionals, m.from) == Some(i)
    requires rd.keyword(BodyText(m)) == CompleteKeyword
    requires var pid := st.professionals[i].id;
      k < |st.assignments| && IsActiveAssignmentOf(st.assignments[k], pid)
      && forall j :: 0 <= j < |st.assignments| && j != k ==> !IsActiveAssignmentOf(st.assignments[j], pid)
    ensures var once := Run(st, [m], rd); var twice := Run(st, [m, m], rd);
      once.outcomes[0].status == Status.Completed && once.outcomes[0].serviceCallId == Some(st.assignments[k].callId)
      && twice.outcomes[0] == once.outcomes[0] && twice.outcomes[1].status == NoActiveAssignments
      && twice.state.calls == once.state.calls && twice.state.assignments == once.state.assignments
  {
    RunOnceAndTwice(st, m, rd);
    assert FindActiveAssignment(st.assignments, st.professionals[i].id) == Some(k);
    CompleteTransition(st, m, rd, i, k);
    var after := Step(st, m, rd).state;
    assert after.assignments == st.assignments[k := st.assignments[k].(status := AssignmentStatus.Completed)];
    CompleteWithoutActiveAssignment(after, m, rd, i);
  }
}

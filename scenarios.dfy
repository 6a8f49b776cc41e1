/**
 * A worked example: plumber P (phone "+111") and one OPEN plumbing call C
 * in Tel Aviv. P replies "ACCEPT, I'm on it", then "COMPLETE".
 */
module Scenarios {
  import opened Wrappers
  import opened Text
  import opened Keywords
  import opened Store
  import opened Inbound
  import AsWritten
  import Lifecycle

  const Plumbing := Profession(1, "Plumber")
  const P := Professional(10, "Dana", "+111", 1, true, Some("Tel Aviv"))
  const C := ServiceCall(7, "Leak", "Kitchen sink leak", "2025-01-01T09:00", ["Tel Aviv"], "Plumber", Normal, Open)
  const Start := State([Plumbing], [P], [C], [], [], [], 2, 11, 1, 1)
  const AcceptReply := RawMessage("+111", None, Some("ACCEPT, I'm on it"))
  const CompleteReply := RawMessage("+111", None, Some("COMPLETE"))

  /** A text of ASCII characters contains no word that starts with a non-ASCII one. */
  lemma AsciiTextLacksNonAsciiWord(s: string, w: string)
    requires forall k :: 0 <= k < |s| ==> !NonAscii(s[k])
    requires |w| > 0 && NonAscii(w[0])
    ensures !Occurs(s, w)
  {
    forall i
      ensures !OccursAt(s, w, i)
    {
      if 0 <= i && i + |w| <= |s| {
        assert s[i..i + |w|][0] != w[0];
      }
    }
  }

  lemma ClassifiesReplies()
    ensures Classify(BodyText(AcceptReply)) == AcceptKeyword
    ensures Classify(BodyText(CompleteReply)) == CompleteKeyword
  {
    var a := BodyText(AcceptReply);
    assert Upper(a)[0..6] == AcceptToken;
    assert OccursAt(Upper(a), AcceptToken, 0);

    var c := BodyText(CompleteReply);
    var u := Upper(c);
    assert u == "COMPLETE";
    assert OccursAt(u, CompleteToken, 0);
    forall i
      ensures !OccursAt(u, AcceptToken, i)
    {
      if 0 <= i && i + |AcceptToken| <= |u| {
        assert u[i..i + |AcceptToken|][0] != 'A';
      }
    }
    AsciiTextLacksNonAsciiWord(c, AcceptPhrase);
    AsciiTextLacksNonAsciiWord(c, AgreePhrase);
    ClassifyMeaning(a);
    ClassifyMeaning(c);
  }

  lemma StartWellFormed()
    ensures WellFormed(Start)
  {
    assert CallIds(Start.calls) == [7];
  }

  /** Keyword rules that read the two replies as the server's rules do. */
  predicate ReadsReplies(rd: Reading) {
    rd.keyword(BodyText(AcceptReply)) == AcceptKeyword && rd.keyword(BodyText(CompleteReply)) == CompleteKeyword
  }

  lemma StandardReadsReplies(classify: Classifier)
    ensures ReadsReplies(Standard(classify))
  {
    ClassifiesReplies();
  }

  /** The ACCEPT takes C: one ACCEPTED assignment, C becomes ASSIGNED. */
  lemma AcceptStep(rd: Reading)
    requires ReadsReplies(rd)
    ensures var r := Step(Start, AcceptReply, rd);
      r.outcome.status == Status.Accepted && r.outcome.serviceCallId == Some(7)
      && r.state.calls == [C.(status := Assigned)]
      && r.state.assignments == [Assignment(1, 7, 10, AssignmentStatus.Accepted)]
      && r.state.outbox == [Outgoing("+111", JobConfirmation("Leak", ["Tel Aviv"], "2025-01-01T09:00"))]
  {
    StartWellFormed();
    assert FindProfessionalByPhone(Start.professionals, "+111") == Some(0);
    assert ProfessionName(Start.professions, 1) == Some("Plumber");
    assert FindOpenCall(Start.calls, Some("Plumber")) == Some(0);
    AcceptTransition(Start, AcceptReply, rd, 0, 0);
  }

  /** The COMPLETE then closes the assignment and C. */
  lemma CompleteStep(rd: Reading)
    requires ReadsReplies(rd)
    ensures var s := Step(Start, AcceptReply, rd).state; var r := Step(s, CompleteReply, rd);
      r.outcome.status == Status.Completed && r.outcome.serviceCallId == Some(7)
      && r.state.calls == [C.(status := CallStatus.Completed)]
      && r.state.assignments == [Assignment(1, 7, 10, AssignmentStatus.Completed)]
      && r.state.outbox == s.outbox + [Outgoing("+111", CompletionThanks)]
  {
    AcceptStep(rd);
    StartWellFormed();
    Lifecycle.StepPreservesWellFormed(Start, AcceptReply, rd);
    var s := Step(Start, AcceptReply, rd).state;
    assert FindProfessionalByPhone(s.professionals, "+111") == Some(0);
    assert FindActiveAssignment(s.assignments, 10) == Some(0);
    CompleteTransition(s, CompleteReply, rd, 0, 0);
  }

  /** Accept, then complete: the call goes OPEN, ASSIGNED, COMPLETED, and one assignment records it. */
  lemma AcceptThenComplete(rd: Reading)
    requires ReadsReplies(rd)
    ensures var r := Run(Start, [AcceptReply, CompleteReply], rd);
      r.outcomes[0].status == Status.Accepted && r.outcomes[0].serviceCallId == Some(7)
      && r.outcomes[1].status == Status.Completed && r.outcomes[1].serviceCallId == Some(7)
      && r.state.calls == [C.(status := CallStatus.Completed)]
      && r.state.assignments == [Assignment(1, 7, 10, AssignmentStatus.Completed)]
      && r.state.outbox
         == [Outgoing("+111", JobConfirmation("Leak", ["Tel Aviv"], "2025-01-01T09:00")), Outgoing("+111", CompletionThanks)]
  {
    AsWritten.RunFirst(Start, AcceptReply, [CompleteReply], rd);
    var s := Step(Start, AcceptReply, rd).state;
    AsWritten.RunFirst(s, CompleteReply, [], rd);
    assert [AcceptReply] + [CompleteReply] == [AcceptReply, CompleteReply];
    assert [CompleteReply] + [] == [CompleteReply];
    AcceptStep(rd);
    CompleteStep(rd);
  }

  /** The same two replies against the code as written: a 500 right after the first. */
  lemma AsWrittenStopsAfterAccept(rd: Reading)
    requires ReadsReplies(rd)
    ensures var r := AsWritten.ReceiveAsWritten(Start, [AcceptReply, CompleteReply], rd);
      r.result == Failure(HttpError(500, AsWritten.AwaitBoolError))
      && r.state.calls == [C.(status := Assigned)]
      && |r.state.messages| == 1
  {
    AcceptStep(rd);
  }

  /** The server's own rules: accept, then complete, as above. */
  lemma ServerAcceptsThenCompletes(classify: Classifier)
    ensures var r := Run(Start, [AcceptReply, CompleteReply], Standard(classify));
      r.outcomes[0].status == Status.Accepted && r.outcomes[1].status == Status.Completed
      && r.state.calls == [C.(status := CallStatus.Completed)]
  {
    StandardReadsReplies(classify);
    AcceptThenComplete(Standard(classify));
  }
}

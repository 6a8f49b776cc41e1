/**
 * The backend's state held in place: one object whose fields are the store's
 * tables, updated by the inbound-message webhook and the CSV upload. Each
 * method is proved to leave exactly the state its specification function
 * describes.
 */
module Service {
  import opened Wrappers
  import opened Keywords
  import opened Store
  import opened Inbound
  import CsvImport
  import Lifecycle

  class Server {
    var professions: seq<Profession>
    var professionals: seq<Professional>
    var calls: seq<ServiceCall>
    var assignments: seq<Assignment>
    var messages: seq<Message>
    var outbox: seq<Outgoing>
    var nextProfessionId: nat
    var nextProfessionalId: nat
    var nextAssignmentId: nat
    var nextMessageId: nat

    /** The whole state as a value. */
    function State(): State
      reads this
    {
      Store.State(professions, professionals, calls, assignments, messages, outbox,
                  nextProfessionId, nextProfessionalId, nextAssignmentId, nextMessageId)
    }

    constructor (init: State)
      ensures State() == init
    {
      professions, professionals, calls := init.professions, init.professionals, init.calls;
      assignments, messages, outbox := init.assignments, init.messages, init.outbox;
      nextProfessionId, nextProfessionalId := init.nextProfessionId, init.nextProfessionalId;
      nextAssignmentId, nextMessageId := init.nextAssignmentId, init.nextMessageId;
    }

    /** The body of the webhook's loop, for one message. */
    method HandleMessage(m: RawMessage, rd: Reading) returns (o: Outcome)
      modifies this
      ensures State() == Step(old(State()), m, rd).state
      ensures o == Step(old(State()), m, rd).outcome
    {
      var name := m.fromName.GetOr(UnknownName);
      var text := m.body.GetOr("");
      var intent := AnalyzeIntent(rd, text);
      messages := messages + [Message(nextMessageId, m.from, name, text, intent)];
      nextMessageId := nextMessageId + 1;

      var sender := FindProfessionalByPhone(professionals, m.from);
      if sender.None? {
        o := Outcome(m.from, name, text, intent, UnknownProfessional, None);
        return;
      }
      var p := professionals[sender.value];
      var keyword := rd.keyword(text);
      if keyword == AcceptKeyword {
        o := AcceptReply(p, m, rd);
      } else if keyword == CompleteKeyword {
        o := CompleteReply(p, m, rd);
      } else {
        o := Outcome(m.from, name, text, intent, OtherMessage, None);
      }
    }

    /** An ACCEPT from a known professional. */
    method AcceptReply(p: Professional, m: RawMessage, rd: Reading) returns (o: Outcome)
      modifies this
      ensures State() == AcceptCall(old(State()), p, m, rd).state
      ensures o == AcceptCall(old(State()), p, m, rd).outcome
    {
      var open := FindOpenCall(calls, ProfessionName(professions, p.professionId));
      if open.Some? {
        var c := calls[open.value];
        assignments := assignments + [Assignment(nextAssignmentId, c.id, p.id, AssignmentStatus.Accepted)];
        nextAssignmentId := nextAssignmentId + 1;
        calls := SetCallStatus(calls, c.id, Assigned);
        o := Report(m, rd, Status.Accepted, Some(c.id));
        outbox := outbox + [Outgoing(m.from, JobConfirmation(c.title, c.locations, c.date))];
      } else {
        o := Report(m, rd, NoOpenCalls, None);
        outbox := outbox + [Outgoing(m.from, NoOpenCallsNotice)];
      }
    }

    /** A COMPLETE from a known professional. */
    method CompleteReply(p: Professional, m: RawMessage, rd: Reading) returns (o: Outcome)
      modifies this
      ensures State() == CompleteCall(old(State()), p, m, rd).state
      ensures o == CompleteCall(old(State()), p, m, rd).outcome
    {
      var active := FindActiveAssignment(assignments, p.id);
      if active.Some? {
        var a := assignments[active.value];
        assignments := SetAssignmentStatus(assignments, a.id, AssignmentStatus.Completed);
        calls := SetCallStatus(calls, a.callId, CallStatus.Completed);
        o := Report(m, rd, Status.Completed, Some(a.callId));
        outbox := outbox + [Outgoing(m.from, CompletionThanks)];
      } else {
        o := Report(m, rd, NoActiveAssignments, None);
      }
    }

    /**
     * The webhook: an empty batch is refused before anything is written;
     * otherwise the messages are processed in order, one outcome each, and
     * the store's integrity and the lifecycle invariant are kept.
     */
    method ReceiveMessages(batch: seq<RawMessage>, classify: Classifier)
      returns (response: Result<seq<Outcome>, HttpError>)
      modifies this
      ensures batch == [] ==> response == Failure(NoMessages) && State() == old(State())
      ensures batch != [] ==>
        response == Success(Run(old(State()), batch, Standard(classify)).outcomes)
        && State() == Run(old(State()), batch, Standard(classify)).state
      ensures WellFormed(old(State())) ==> WellFormed(State())
      ensures WellFormed(old(State())) && LifecycleConsistent(old(State())) ==> LifecycleConsistent(State())
    {
      if batch == [] {
        return Failure(NoMessages);
      }
      ghost var start := State();
      var processed: seq<Outcome> := [];
      for i := 0 to |batch|
        invariant State() == Run(start, batch[..i], Standard(classify)).state
        invariant processed == Run(start, batch[..i], Standard(classify)).outcomes
      {
        assert batch[..i + 1][..i] == batch[..i];
        var o := HandleMessage(batch[i], Standard(classify));
        processed := processed + [o];
      }
      assert batch[..|batch|] == batch;
      response := Success(processed);
      if WellFormed(start) {
        Lifecycle.RunPreservesWellFormed(start, batch, Standard(classify));
        if LifecycleConsistent(start) {
          Lifecycle.RunPreservesLifecycle(start, batch, Standard(classify));
        }
      }
    }

    /** One CSV data row. */
    method ImportRow(row: seq<string>) returns (added: Option<CsvImport.Added>)
      modifies this
      ensures State() == CsvImport.ImportRow(old(State()), row).state
      ensures added == CsvImport.ImportRow(old(State()), row).added
    {
      added := None;
      if |row| < 6 {
        return;
      }
      var name, phone, professionName, available, location := row[0], row[1], row[2], row[3], row[4];
      var isAvailable := CsvImport.ParseAvailable(available);
      var up := CsvImport.UpsertProfession(professions, nextProfessionId, professionName);
      professions, nextProfessionId := up.professions, up.nextId;
      var existing := FindProfessionalByPhone(professionals, phone);
      if existing.None? {
        var p := Professional(nextProfessionalId, name, phone, up.id, isAvailable, Some(location));
        professionals := professionals + [p];
        nextProfessionalId := nextProfessionalId + 1;
        added := Some(CsvImport.Added(p.id, name));
      }
    }

    /**
     * The CSV upload: the header row is skipped and the data rows imported in
     * order; the answer lists one entry per professional created.
     */
    method UploadProfessionalsCsv(rows: seq<seq<string>>) returns (added: seq<CsvImport.Added>)
      modifies this
      ensures State() == CsvImport.ImportCsv(old(State()), rows).state
      ensures added == CsvImport.ImportCsv(old(State()), rows).added
      ensures |professionals| == |old(professionals)| + |added|
    {
      added := [];
      if rows == [] {
        return;
      }
      ghost var start := State();
      var data := rows[1..];
      for i := 0 to |data|
        invariant State() == CsvImport.ImportRows(start, data[..i]).state
        invariant added == CsvImport.ImportRows(start, data[..i]).added
      {
        assert data[..i + 1][..i] == data[..i];
        var a := ImportRow(data[i]);
        if a.Some? {
          added := added + [a.value];
        }
      }
      assert data[..|data|] == data;
      CsvImport.ImportCountsCreations(start, data);
    }
  }
}

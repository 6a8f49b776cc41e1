/**
 * The in-memory store that stands in for the database: the records the
 * backend keeps, the `find_first` and `update` operations the core uses on
 * them, the integrity the database itself guarantees (primary keys, the
 * assignment-to-call foreign key), and the directory filter used to pick
 * professionals by profession and city.
 */
module Store {
  import opened Wrappers

  datatype CallStatus = Open | Assigned | Confirmed | Completed
  datatype Urgency = Low | Normal | High | Urgent
  datatype AssignmentStatus = Accepted | Completed

  datatype Profession = Profession(id: nat, name: string)

  datatype Professional = Professional(
    id: nat, name: string, phone: string, professionId: nat, available: bool, location: Option<string>)

  datatype ServiceCall = ServiceCall(
    id: nat, title: string, description: string, date: string, locations: seq<string>,
    profession: string, urgency: Urgency, status: CallStatus)

  datatype Assignment = Assignment(id: nat, callId: nat, professionalId: nat, status: AssignmentStatus)

  /** An entry of the message log. */
  datatype Message = Message(id: nat, fromNumber: string, fromName: string, body: string, intent: string)

  /** The replies the backend sends back over the messaging channel. */
  datatype Reply =
    | JobConfirmation(title: string, locations: seq<string>, date: string)
    | NoOpenCallsNotice
    | CompletionThanks

  datatype Outgoing = Outgoing(to: string, reply: Reply)

  /** An error answered to the HTTP client. */
  datatype HttpError = HttpError(status: nat, detail: string)

  /**
   * Everything the core reads or writes: the tables, the replies sent so far,
   * and the next value of each auto-incremented id.
   */
  datatype State = State(
    professions: seq<Profession>,
    professionals: seq<Professional>,
    calls: seq<ServiceCall>,
    assignments: seq<Assignment>,
    messages: seq<Message>,
    outbox: seq<Outgoing>,
    nextProfessionId: nat,
    nextProfessionalId: nat,
    nextAssignmentId: nat,
    nextMessageId: nat)

  // `find_first` with a where clause: the index of the first record, in
  // table order, that satisfies the clause, if any. Each query has its own
  // scan over a fixed condition instead of one search taking a predicate
  // argument: a function-valued argument makes every proof that uses the
  // lookups markedly more expensive for the solver.

  function FindProfessionalByPhone(ps: seq<Professional>, phone: string): (r: Option<nat>)
    ensures r.Some? ==> r.value < |ps| && ps[r.value].phone == phone
    ensures r.Some? ==> forall j :: 0 <= j < r.value ==> ps[j].phone != phone
    ensures r.None? ==> forall j :: 0 <= j < |ps| ==> ps[j].phone != phone
  {
    PhoneFrom(ps, phone, 0)
  }

  function PhoneFrom(ps: seq<Professional>, phone: string, i: nat): (r: Option<nat>)
    requires i <= |ps|
    ensures r.Some? ==> i <= r.value < |ps| && ps[r.value].phone == phone
    ensures r.Some? ==> forall j :: i <= j < r.value ==> ps[j].phone != phone
    ensures r.None? ==> forall j :: i <= j < |ps| ==> ps[j].phone != phone
    decreases |ps| - i
  {
    if i == |ps| then None
    else if ps[i].phone == phone then Some(i)
    else PhoneFrom(ps, phone, i + 1)
  }

  function FindProfessionByName(ps: seq<Profession>, name: string): (r: Option<nat>)
    ensures r.Some? ==> r.value < |ps| && ps[r.value].name == name
    ensures r.Some? ==> forall j :: 0 <= j < r.value ==> ps[j].name != name
    ensures r.None? ==> forall j :: 0 <= j < |ps| ==> ps[j].name != name
  {
    NameFrom(ps, name, 0)
  }

  function NameFrom(ps: seq<Profession>, name: string, i: nat): (r: Option<nat>)
    requires i <= |ps|
    ensures r.Some? ==> i <= r.value < |ps| && ps[r.value].name == name
    ensures r.Some? ==> forall j :: i <= j < r.value ==> ps[j].name != name
    ensures r.None? ==> forall j :: i <= j < |ps| ==> ps[j].name != name
    decreases |ps| - i
  {
    if i == |ps| then None
    else if ps[i].name == name then Some(i)
    else NameFrom(ps, name, i + 1)
  }

  function FindProfessionById(ps: seq<Profession>, id: nat): (r: Option<nat>)
    ensures r.Some? ==> r.value < |ps| && ps[r.value].id == id
    ensures r.Some? ==> forall j :: 0 <= j < r.value ==> ps[j].id != id
    ensures r.None? ==> forall j :: 0 <= j < |ps| ==> ps[j].id != id
  {
    IdFrom(ps, id, 0)
  }

  function IdFrom(ps: seq<Profession>, id: nat, i: nat): (r: Option<nat>)
    requires i <= |ps|
    ensures r.Some? ==> i <= r.value < |ps| && ps[r.value].id == id
    ensures r.Some? ==> forall j :: i <= j < r.value ==> ps[j].id != id
    ensures r.None? ==> forall j :: i <= j < |ps| ==> ps[j].id != id
    decreases |ps| - i
  {
    if i == |ps| then None
    else if ps[i].id == id then Some(i)
    else IdFrom(ps, id, i + 1)
  }

  /** The name of the profession a professional is linked to. */
  function ProfessionName(ps: seq<Profession>, id: nat): (r: Option<string>)
    ensures r.Some? <==> exists j :: 0 <= j < |ps| && ps[j].id == id
    ensures r.Some? ==> exists j :: 0 <= j < |ps| && ps[j].id == id && ps[j].name == r.value
  {
    match FindProfessionById(ps, id)
    case None => None
    case Some(i) => Some(ps[i].name)
  }

  predicate IsOpenCallFor(c: ServiceCall, profession: Option<string>) {
    c.status == Open && profession == Some(c.profession)
  }

  function FindOpenCall(cs: seq<ServiceCall>, profession: Option<string>): (r: Option<nat>)
    ensures r.Some? ==> r.value < |cs| && IsOpenCallFor(cs[r.value], profession)
    ensures r.Some? ==> forall j :: 0 <= j < r.value ==> !IsOpenCallFor(cs[j], profession)
    ensures r.None? ==> forall j :: 0 <= j < |cs| ==> !IsOpenCallFor(cs[j], profession)
  {
    OpenCallFrom(cs, profession, 0)
  }

  function OpenCallFrom(cs: seq<ServiceCall>, profession: Option<string>, i: nat): (r: Option<nat>)
    requires i <= |cs|
    ensures r.Some? ==> i <= r.value < |cs| && IsOpenCallFor(cs[r.value], profession)
    ensures r.Some? ==> forall j :: i <= j < r.value ==> !IsOpenCallFor(cs[j], profession)
    ensures r.None? ==> forall j :: i <= j < |cs| ==> !IsOpenCallFor(cs[j], profession)
    decreases |cs| - i
  {
    if i == |cs| then None
    else if IsOpenCallFor(cs[i], profession) then Some(i)
    else OpenCallFrom(cs, profession, i + 1)
  }

  predicate IsActiveAssignmentOf(a: Assignment, professionalId: nat) {
    a.professionalId == professionalId && a.status == AssignmentStatus.Accepted
  }

  function FindActiveAssignment(asg: seq<Assignment>, professionalId: nat): (r: Option<nat>)
    ensures r.Some? ==> r.value < |asg| && IsActiveAssignmentOf(asg[r.value], professionalId)
    ensures r.Some? ==> forall j :: 0 <= j < r.value ==> !IsActiveAssignmentOf(asg[j], professionalId)
    ensures r.None? ==> forall j :: 0 <= j < |asg| ==> !IsActiveAssignmentOf(asg[j], professionalId)
  {
    ActiveFrom(asg, professionalId, 0)
  }

  function ActiveFrom(asg: seq<Assignment>, professionalId: nat, i: nat): (r: Option<nat>)
    requires i <= |asg|
    ensures r.Some? ==> i <= r.value < |asg| && IsActiveAssignmentOf(asg[r.value], professionalId)
    ensures r.Some? ==> forall j :: i <= j < r.value ==> !IsActiveAssignmentOf(asg[j], professionalId)
    ensures r.None? ==> forall j :: i <= j < |asg| ==> !IsActiveAssignmentOf(asg[j], professionalId)
    decreases |asg| - i
  {
    if i == |asg| then None
    else if IsActiveAssignmentOf(asg[i], professionalId) then Some(i)
    else ActiveFrom(asg, professionalId, i + 1)
  }

  /** The ids of the calls, in table order: an id is listed exactly when some call has it. */
  function CallIds(cs: seq<ServiceCall>): (r: seq<nat>)
    ensures |r| == |cs| && forall k :: 0 <= k < |cs| ==> r[k] == cs[k].id
    ensures forall id :: id in r <==> exists k :: 0 <= k < |cs| && cs[k].id == id
  {
    seq(|cs|, k requires 0 <= k < |cs| => cs[k].id)
  }

  /**
   * `servicecall.update(where id, status)`. The ids are kept. With unique
   * ids the one call that has the id gets the status and no other call
   * changes; when no call has the id, nothing changes.
   */
  function SetCallStatus(cs: seq<ServiceCall>, id: nat, status: CallStatus): (r: seq<ServiceCall>)
    ensures CallIds(r) == CallIds(cs)
    ensures forall k :: 0 <= k < |cs| && cs[k].id == id && CallsKeyed(cs) ==> r == cs[k := cs[k].(status := status)]
    ensures (forall k :: 0 <= k < |cs| ==> cs[k].id != id) ==> r == cs
  {
    var r := seq(|cs|, k requires 0 <= k < |cs| => if cs[k].id == id then cs[k].(status := status) else cs[k]);
    assert CallIds(r) == CallIds(cs);
    r
  }

  /**
   * `servicecallassignment.update(where id, status)`. With unique ids the one
   * assignment that has the id gets the status and no other one changes;
   * when none has the id, nothing changes.
   */
  function SetAssignmentStatus(asg: seq<Assignment>, id: nat, status: AssignmentStatus): (r: seq<Assignment>)
    ensures |r| == |asg|
    ensures forall k :: 0 <= k < |asg| && asg[k].id == id && AssignmentIdsUnique(asg) ==>
      r == asg[k := asg[k].(status := status)]
    ensures (forall k :: 0 <= k < |asg| ==> asg[k].id != id) ==> r == asg
  {
    seq(|asg|, k requires 0 <= k < |asg| => if asg[k].id == id then asg[k].(status := status) else asg[k])
  }

  // Integrity the database guarantees.

  ghost predicate ProfessionsKeyed(ps: seq<Profession>, next: nat) {
    (forall i, j :: 0 <= i < |ps| && 0 <= j < |ps| && i != j ==> ps[i].id != ps[j].id && ps[i].name != ps[j].name)
    && (forall i :: 0 <= i < |ps| ==> ps[i].id < next)
  }

  ghost predicate ProfessionalsKeyed(ps: seq<Professional>, next: nat) {
    (forall i, j :: 0 <= i < |ps| && 0 <= j < |ps| && i != j ==> ps[i].id != ps[j].id)
    && (forall i :: 0 <= i < |ps| ==> ps[i].id < next)
  }

  ghost predicate CallsKeyed(cs: seq<ServiceCall>) {
    forall i, j :: 0 <= i < |cs| && 0 <= j < |cs| && i != j ==> cs[i].id != cs[j].id
  }

  ghost predicate AssignmentIdsUnique(asg: seq<Assignment>) {
    forall i, j :: 0 <= i < |asg| && 0 <= j < |asg| && i != j ==> asg[i].id != asg[j].id
  }

  ghost predicate AssignmentsKeyed(asg: seq<Assignment>, next: nat) {
    AssignmentIdsUnique(asg) && forall i :: 0 <= i < |asg| ==> asg[i].id < next
  }

  ghost predicate MessagesKeyed(ms: seq<Message>, next: nat) {
    (forall i, j :: 0 <= i < |ms| && 0 <= j < |ms| && i != j ==> ms[i].id != ms[j].id)
    && (forall i :: 0 <= i < |ms| ==> ms[i].id < next)
  }

  /** Every assignment refers to an existing service call. */
  ghost predicate AssignmentsLinked(asg: seq<Assignment>, cs: seq<ServiceCall>) {
    forall i :: 0 <= i < |asg| ==> asg[i].callId in CallIds(cs)
  }

  ghost predicate WellFormed(st: State) {
    ProfessionsKeyed(st.professions, st.nextProfessionId)
    && ProfessionalsKeyed(st.professionals, st.nextProfessionalId)
    && CallsKeyed(st.calls)
    && AssignmentsKeyed(st.assignments, st.nextAssignmentId)
    && MessagesKeyed(st.messages, st.nextMessageId)
    && AssignmentsLinked(st.assignments, st.calls)
  }

  /**
   * The service-call lifecycle invariant: a call with an ACCEPTED assignment
   * is no longer OPEN, and no call has two ACCEPTED assignments.
   */
  ghost predicate LifecycleConsistent(st: State) {
    (forall i, k ::
      0 <= i < |st.assignments| && 0 <= k < |st.calls|
      && st.assignments[i].status == AssignmentStatus.Accepted && st.calls[k].id == st.assignments[i].callId
      ==> st.calls[k].status != Open)
    && (forall i, j ::
      0 <= i < |st.assignments| && 0 <= j < |st.assignments| && i != j
      && st.assignments[i].status == AssignmentStatus.Accepted && st.assignments[j].status == AssignmentStatus.Accepted
      ==> st.assignments[i].callId != st.assignments[j].callId)
  }

  /** Lifecycle rank of a call status: statuses only move up this scale. */
  function Rank(s: CallStatus): nat {
    match s
    case Open => 0
    case Assigned => 1
    case Confirmed => 2
    case Completed => 3
  }

  // The directory filter of get_professionals_by_profession_and_cities.

  /**
   * The where clause: the profession, available, and -- only when a non-empty
   * city list is given -- a location among the cities.
   */
  predicate MatchesFilter(p: Professional, professionId: nat, cities: seq<string>) {
    p.professionId == professionId && p.available
    && (|cities| > 0 ==> p.location.Some? && p.location.value in cities)
  }

  /** `professional.find_many(where)`: the matching records, in store order. */
  function Filter(ps: seq<Professional>, professionId: nat, cities: seq<string>): (r: seq<Professional>)
    ensures |r| <= |ps|
    ensures forall p :: p in r <==> p in ps && MatchesFilter(p, professionId, cities)
  {
    if |ps| == 0 then []
    else
      var rest := Filter(ps[1..], professionId, cities);
      assert forall p :: p in ps <==> p == ps[0] || p in ps[1..];
      if MatchesFilter(ps[0], professionId, cities) then [ps[0]] + rest else rest
  }

  /** A single record is kept exactly when it matches. */
  lemma FilterOne(p: Professional, professionId: nat, cities: seq<string>)
    ensures Filter([p], professionId, cities) == if MatchesFilter(p, professionId, cities) then [p] else []
  {
    assert [p][1..] == [];
  }

  /**
   * Filtering a concatenation filters each part, in order. With `FilterOne`
   * this pins the result down: the matching records, in table order, each
   * as often as it occurs in the table.
   */
  lemma {:induction false} FilterAppend(a: seq<Professional>, b: seq<Professional>, professionId: nat, cities: seq<string>)
    ensures Filter(a + b, professionId, cities) == Filter(a, professionId, cities) + Filter(b, professionId, cities)
    decreases |a|
  {
    if a == [] {
      assert a + b == b;
    } else {
      assert (a + b)[0] == a[0];
      assert (a + b)[1..] == a[1..] + b;
      FilterAppend(a[1..], b, professionId, cities);
    }
  }

  /**
   * The endpoint: look the profession up by name, then filter. A missing
   * profession raises a 400 inside the handler's `try`, whose generic
   * `except` turns it into a 500.
   */
  function ProfessionalsByProfessionAndCities(st: State, professionName: string, cities: seq<string>)
    : (r: Result<seq<Professional>, HttpError>)
    ensures r.Failure? <==> forall i :: 0 <= i < |st.professions| ==> st.professions[i].name != professionName
    ensures r.Failure? ==> r.error.status == 500
    ensures r.Success? ==>
      exists i :: 0 <= i < |st.professions| && st.professions[i].name == professionName &&
        r.value == Filter(st.professionals, st.professions[i].id, cities) &&
        forall p :: p in r.value <==> p in st.professionals && MatchesFilter(p, st.professions[i].id, cities)
  {
    match FindProfessionByName(st.professions, professionName)
    case None => Failure(HttpError(500, "400: Profession not found"))
    case Some(i) => Success(Filter(st.professionals, st.professions[i].id, cities))
  }
}

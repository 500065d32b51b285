/** The attention item, its validators and the edits its owners make
    (pkg/attention-item.go, pkg/answer.go, pkg/answers.go, pkg/transition.go). */
module Items {
  import opened Text
  import opened Calendar

  datatype State = Open | Answered | Closed
  datatype Mechanism = Message | Permission | Ack
  datatype Cardinality = Unset | Single | Multiple
  datatype AnswerKind = NoKind | OptionKind | TextKind | SkipKind | HiddenKind
  datatype AnswerOption = AnswerOption(name: string, description: string, recommended: bool, exclusive: bool)
  datatype Question = Question(tab: string, payload: string, cardinality: Cardinality, options: seq<AnswerOption>)
  datatype Answer = Answer(kind: AnswerKind, value: string, values: seq<string>)
  datatype QuestionAnswer = QuestionAnswer(question: string, answer: Answer)
  datatype Client = Client(remoteAddr: string, userAgent: string, automation: string)
  datatype Route = Route(requestID: string, policy: string)

  datatype Error =
    | ItemNotFound | AlreadyAnswered | IllegalTransition | ItemNotOpen | AlreadyEscalated
    | FlagReasonRequired | RatingInvalid | InvalidSessionID | PermissionCloseWithoutDecision
    | InvalidLivenessRef | ValidationFailed

  datatype Result<+T> = Ok(value: T) | Err(error: Error)

  /** What a producer declares. */
  datatype Request = Request(
    producerID: string, producerKind: string, provenanceClass: string, livenessRef: string, dedupKey: string,
    interruptClass: string, risk: string, payload: string, context: string, mechanism: Mechanism,
    options: seq<AnswerOption>, cardinality: Cardinality, questions: seq<Question>, expiresAt: Option<Instant>)

  datatype Item = Item(
    itemID: string, producerID: string, producerKind: string, provenanceClass: string, livenessRef: string,
    dedupKey: string, interruptClass: string, risk: string, payload: string, context: string,
    mechanism: Mechanism, options: seq<AnswerOption>, cardinality: Cardinality, questions: seq<Question>,
    state: State, createdAt: Instant, answeredAt: Option<Instant>, answeredBy: string,
    answeredClient: Option<Client>, escalatedBy: string, escalatedAt: Option<Instant>, flagReason: string,
    flaggedAt: Option<Instant>, rating: string, ratedAt: Option<Instant>, resolvedBy: string, decision: string,
    requestID: string, policy: string, answer: Option<Answer>, answers: seq<QuestionAnswer>,
    closedAt: Option<Instant>, expiresAt: Option<Instant>)

  // ---- liveness refs ----

  datatype Ref = SessionRef(value: string) | OwnerRef(value: string) | HeartbeatRef(value: string) | BadRef

  function IndexOfColon(s: string, from: nat): (i: nat)
    requires from <= |s|
    ensures from <= i <= |s|
    decreases |s| - from
  {
    if from == |s| || s[from] == ':' then from else IndexOfColon(s, from + 1)
  }

  /** `<model>:<value>`, cut at the first colon; any other shape is refused. */
  function ParseRef(ref: string): Ref {
    var i := IndexOfColon(ref, 0);
    if i + 1 >= |ref| then BadRef
    else if ref[..i] == "session" then SessionRef(ref[i + 1..])
    else if ref[..i] == "owner" then OwnerRef(ref[i + 1..])
    else if ref[..i] == "heartbeat" then HeartbeatRef(ref[i + 1..])
    else BadRef
  }

  // ---- validation ----

  function CountIf(options: seq<AnswerOption>, exclusive: bool): nat {
    if options == [] then 0
    else CountIf(options[1..], exclusive)
         + if (if exclusive then options[0].exclusive else options[0].recommended) then 1 else 0
  }

  predicate ValidOptions(options: seq<AnswerOption>, cardinality: Cardinality) {
    && (forall i :: 0 <= i < |options| ==> options[i].name != "")
    && (cardinality == Multiple || CountIf(options, false) <= 1)
    && CountIf(options, true) <= 1
  }

  predicate UniqueTabs(questions: seq<Question>) {
    forall i, j :: 0 <= i < j < |questions| ==> questions[i].tab != questions[j].tab
  }

  predicate ValidQuestions(questions: seq<Question>) {
    && (forall i :: 0 <= i < |questions| ==>
         && questions[i].tab != "" && questions[i].payload != ""
         && ValidOptions(questions[i].options, questions[i].cardinality))
    && UniqueTabs(questions)
  }

  /** Go's zero time, 0001-01-01T00:00:00Z. */
  const ZERO_TIME: Instant := 366 * NS_PER_DAY

  /** PushRequest.Validate, with its enumerated fields valid by type. */
  predicate ValidRequest(r: Request) {
    && r.producerID != "" && r.dedupKey != "" && r.interruptClass != "" && r.payload != ""
    && ParseRef(r.livenessRef) != BadRef
    && (r.options == [] || (r.mechanism == Message && ValidOptions(r.options, r.cardinality)))
    && (r.cardinality == Unset || r.mechanism == Message)
    && (r.questions == [] || (r.mechanism == Message && ValidQuestions(r.questions)))
    && r.expiresAt != Some(ZERO_TIME)
  }

  /** Answer.Validate: kind, value and values agree. */
  predicate ValidAnswer(a: Answer) {
    && (match a.kind
        case OptionKind => |a.values| > 0 || a.value != ""
        case TextKind => a.value != ""
        case SkipKind => a.value == ""
        case HiddenKind => a.value == ""
        case NoKind => true)
    && (|a.values| > 0 ==>
         a.kind == OptionKind && a.value == "" && forall i :: 0 <= i < |a.values| ==> a.values[i] != "")
  }

  /** validateAnswerCarrier: a pick travels in the field its cardinality names. */
  predicate CarrierFits(a: Answer, cardinality: Cardinality) {
    a.kind == OptionKind ==> if cardinality == Multiple then |a.values| > 0 else a.value != ""
  }

  predicate DistinctQuestions(answers: seq<QuestionAnswer>) {
    forall i, j :: 0 <= i < j < |answers| ==> answers[i].question != answers[j].question
  }

  /** The cardinality the map built from the questions holds for a tab: the last writer's. */
  function CardinalityOf(questions: seq<Question>, tab: string): Option<Cardinality> {
    if questions == [] then None
    else if questions[|questions| - 1].tab == tab then Some(questions[|questions| - 1].cardinality)
    else CardinalityOf(questions[..|questions| - 1], tab)
  }

  predicate AnswersMatch(questions: seq<Question>, answers: seq<QuestionAnswer>) {
    forall i :: 0 <= i < |answers| ==>
      && CardinalityOf(questions, answers[i].question).Some?
      && CarrierFits(answers[i].answer, CardinalityOf(questions, answers[i].question).value)
  }

  lemma {:induction false} CardinalityOfSound(questions: seq<Question>, tab: string)
    ensures CardinalityOf(questions, tab).Some? ==>
              exists q :: q in questions && q.tab == tab && CardinalityOf(questions, tab) == Some(q.cardinality)
  {
    if questions != [] {
      var last := questions[|questions| - 1];
      assert last in questions;
      if last.tab != tab { CardinalityOfSound(questions[..|questions| - 1], tab); }
    }
  }

  predicate ValidSingleAnswer(item: Item) {
    item.answer.Some? ==>
      item.questions == [] && ValidAnswer(item.answer.value) && CarrierFits(item.answer.value, item.cardinality)
  }

  predicate ValidAnswerList(item: Item) {
    item.answers != [] ==>
      && item.answer.None?
      && (forall i :: 0 <= i < |item.answers| ==>
           item.answers[i].question != "" && ValidAnswer(item.answers[i].answer))
      && DistinctQuestions(item.answers)
      && AnswersMatch(item.questions, item.answers)
  }

  /** The loop of validateAnswersMatchQuestions decides AnswersMatch. */
  method MatchAnswers(questions: seq<Question>, answers: seq<QuestionAnswer>) returns (ok: bool)
    ensures ok <==> AnswersMatch(questions, answers)
  {
    var cardinalities: map<string, Cardinality> := map[];
    for i := 0 to |questions|
      invariant forall tab :: CardinalityOf(questions[..i], tab) ==
                  if tab in cardinalities then Some(cardinalities[tab]) else None
    {
      assert questions[..i + 1][..i] == questions[..i];
      cardinalities := cardinalities[questions[i].tab := questions[i].cardinality];
    }
    assert questions[..|questions|] == questions;
    for i := 0 to |answers|
      invariant forall j :: 0 <= j < i ==>
                  && CardinalityOf(questions, answers[j].question).Some?
                  && CarrierFits(answers[j].answer, CardinalityOf(questions, answers[j].question).value)
    {
      if answers[i].question !in cardinalities { return false; }
      if !CarrierFits(answers[i].answer, cardinalities[answers[i].question]) { return false; }
    }
    return true;
  }

  // ---- the item's life ----

  function NewItem(r: Request, id: string, now: Instant): Item {
    Item(id, r.producerID, r.producerKind, r.provenanceClass, r.livenessRef, r.dedupKey, r.interruptClass, r.risk,
         r.payload, r.context, r.mechanism, r.options, r.cardinality, r.questions, Open, now, None, "", None, "",
         None, "", None, "", None, "", "", "", "", None, [], None, r.expiresAt)
  }

  /** A suppressed re-push rewrites these seven fields. */
  function Repushed(item: Item, r: Request, now: Instant): Item {
    item.(payload := r.payload, context := r.context, options := r.options, interruptClass := r.interruptClass,
          provenanceClass := r.provenanceClass, expiresAt := r.expiresAt, createdAt := now)
  }

  predicate IsExpired(item: Item, now: Instant) { item.expiresAt.Some? && item.expiresAt.value <= now }

  predicate IsAsked(item: Item) { item.mechanism != Ack }

  function AskIdentity(item: Item): string { item.producerID + "\0" + item.dedupKey + "\0" + item.payload }

  /** The schema's transitions table. */
  const TRANSITIONS: seq<(State, State)> := [(Open, Answered), (Open, Closed), (Answered, Closed)]

  predicate LegalTransition(from: State, to: State) { (from, to) in TRANSITIONS }

  predicate IsHex(c: char) { '0' <= c <= '9' || 'a' <= c <= 'f' }

  predicate IsSessionID(s: string) {
    |s| == 36 && forall i :: 0 <= i < 36 ==> if i in {8, 13, 18, 23} then s[i] == '-' else IsHex(s[i])
  }

  /** One write of an item's owners, with the clock reading it is stamped from. */
  datatype Edit =
    | AnswerEdit(answeredBy: string, resolvedBy: string, decision: string, answer: Option<Answer>,
                 answers: seq<QuestionAnswer>, client: Option<Client>, route: Route, now: Instant)
    | EscalateEdit(session: string, now: Instant)
    | CloseEdit(closedBy: string, closeClient: Option<Client>, now: Instant)
    | FlagEdit(reason: string, now: Instant)
    | UnflagEdit
    | RateEdit(rating: string, now: Instant)

  /** Write stores the item, Keep answers it unwritten, Refuse aborts the transaction. */
  datatype Outcome = Write(item: Item) | Keep(item: Item) | Refuse(error: Error)

  /** What a call refuses before its transaction opens. */
  function Precheck(e: Edit): Option<Error> {
    match e
    case EscalateEdit(session, _) => if IsSessionID(session) then None else Some(InvalidSessionID)
    case FlagEdit(reason, _) => if TrimSpace(reason) != "" then None else Some(FlagReasonRequired)
    case RateEdit(rating, _) => if rating in {"", "up", "down"} then None else Some(RatingInvalid)
    case _ => None
  }

  function StampRoute(item: Item, route: Route): Item {
    item.(requestID := if route.requestID != "" then route.requestID else item.requestID,
          policy := if route.policy != "" then route.policy else item.policy)
  }

  function ApplyAnswer(item: Item, e: Edit): Outcome
    requires e.AnswerEdit?
  {
    if item.state == Answered && (item.mechanism != Permission || e.resolvedBy == "") then Refuse(AlreadyAnswered)
    else if item.state == Closed then Refuse(IllegalTransition)
    else
      var next := StampRoute(item, e.route).(
        state := Answered, answeredAt := Some(e.now), answeredBy := e.answeredBy, resolvedBy := e.resolvedBy,
        decision := if item.decision == "" then e.decision else item.decision,
        answer := e.answer, answers := e.answers, answeredClient := e.client);
      if ValidSingleAnswer(next) && ValidAnswerList(next) then Write(next) else Refuse(ValidationFailed)
  }

  function ApplyClose(item: Item, e: Edit): Outcome
    requires e.CloseEdit?
  {
    if !LegalTransition(item.state, Closed) then Refuse(IllegalTransition)
    else
      var next := item.(state := Closed, closedAt := Some(e.now));
      if item.state != Open then Write(next)
      else if item.mechanism == Permission && e.closedBy != "" then Refuse(PermissionCloseWithoutDecision)
      else Write(next.(answeredBy := e.closedBy,
                       answeredClient := if e.closedBy != "" then e.closeClient else item.answeredClient))
  }

  function Apply(item: Item, e: Edit): Outcome {
    match e
    case AnswerEdit(_, _, _, _, _, _, _, _) => ApplyAnswer(item, e)
    case CloseEdit(_, _, _) => ApplyClose(item, e)
    case EscalateEdit(session, now) =>
      if item.state != Open then Refuse(ItemNotOpen)
      else if item.escalatedBy != "" then
        if item.escalatedBy == session then Keep(item) else Refuse(AlreadyEscalated)
      else Write(item.(escalatedBy := session, escalatedAt := Some(now)))
    case FlagEdit(reason, now) =>
      if item.state != Open then Refuse(ItemNotOpen)
      else Write(item.(flagReason := reason, flaggedAt := Some(now)))
    case UnflagEdit => Write(item.(flagReason := "", flaggedAt := None))
    case RateEdit(rating, now) =>
      Write(item.(rating := rating, ratedAt := if rating == "" then None else Some(now)))
  }

  /** The sweeper's close: no arm is named. */
  function SweptClosed(item: Item, now: Instant): Item { item.(state := Closed, closedAt := Some(now)) }

  // ---- what every write keeps ----

  /** Field pairings and answer shapes every stored item keeps. */
  predicate WellKept(item: Item) {
    && ParseRef(item.livenessRef) != BadRef
    && (item.escalatedBy == "" <==> item.escalatedAt.None?)
    && (item.flagReason == "" <==> item.flaggedAt.None?)
    && (item.rating == "" <==> item.ratedAt.None?)
    && (item.state == Closed <==> item.closedAt.Some?)
    && (item.state == Answered ==> item.answeredAt.Some?)
    && (item.state == Open ==> Unanswered(item))
    && ValidSingleAnswer(item) && ValidAnswerList(item)
  }

  predicate Unanswered(item: Item) {
    && item.answeredAt.None? && item.answeredBy == "" && item.answeredClient.None? && item.resolvedBy == ""
    && item.decision == "" && item.requestID == "" && item.policy == "" && item.answer.None? && item.answers == []
  }

  predicate SameIdentity(a: Item, b: Item) {
    && a.itemID == b.itemID && a.producerID == b.producerID && a.producerKind == b.producerKind
    && a.livenessRef == b.livenessRef && a.dedupKey == b.dedupKey && a.risk == b.risk
    && a.mechanism == b.mechanism && a.cardinality == b.cardinality && a.questions == b.questions
  }

  /** The seven fields a re-push owns. */
  predicate SameAsk(a: Item, b: Item) {
    && a.payload == b.payload && a.context == b.context && a.options == b.options
    && a.interruptClass == b.interruptClass && a.provenanceClass == b.provenanceClass
    && a.expiresAt == b.expiresAt && a.createdAt == b.createdAt
  }

  predicate SameAnswer(a: Item, b: Item) {
    && a.answeredAt == b.answeredAt && a.answeredBy == b.answeredBy && a.answeredClient == b.answeredClient
    && a.resolvedBy == b.resolvedBy && a.decision == b.decision && a.requestID == b.requestID
    && a.policy == b.policy && a.answer == b.answer && a.answers == b.answers
  }

  predicate SameEscalation(a: Item, b: Item) { a.escalatedBy == b.escalatedBy && a.escalatedAt == b.escalatedAt }

  predicate FlagKeptOrCleared(a: Item, b: Item) {
    (a.flagReason == b.flagReason && a.flaggedAt == b.flaggedAt) || (b.flagReason == "" && b.flaggedAt.None?)
  }

  /** How one item may differ between two moments of any run. */
  predicate Evolves(a: Item, b: Item) {
    && SameIdentity(a, b)
    && (a.state == b.state || LegalTransition(a.state, b.state))
    && (a.state != Open ==> SameAsk(a, b) && SameEscalation(a, b) && FlagKeptOrCleared(a, b))
    && (a.state == Closed ==> SameAnswer(a, b) && a.closedAt == b.closedAt)
    && (a.state == Answered && a.mechanism != Permission ==> SameAnswer(a, b))
    && (a.escalatedBy != "" ==> SameEscalation(a, b))
    && (a.decision != "" ==> b.decision == a.decision)
    && (a.requestID != "" ==> b.requestID != "")
    && (a.policy != "" ==> b.policy != "")
  }

  lemma EvolvesReflexive(item: Item)
    ensures Evolves(item, item)
  {
  }

  lemma EvolvesTransitive(a: Item, b: Item, c: Item)
    requires Evolves(a, b) && Evolves(b, c)
    ensures Evolves(a, c)
  {
  }

  lemma AnswerEvolves(item: Item, e: Edit)
    requires WellKept(item) && e.AnswerEdit? && ApplyAnswer(item, e).Write?
    ensures Evolves(item, ApplyAnswer(item, e).item) && WellKept(ApplyAnswer(item, e).item)
  {
    hide ParseRef, ValidAnswer, CarrierFits, ValidAnswerList, ValidSingleAnswer;
  }

  lemma AnswerNeverKeeps(item: Item, e: Edit)
    requires e.AnswerEdit?
    ensures !ApplyAnswer(item, e).Keep?
  {
  }

  lemma CloseNeverKeeps(item: Item, e: Edit)
    requires e.CloseEdit?
    ensures !ApplyClose(item, e).Keep?
  {
  }

  lemma CloseEvolves(item: Item, e: Edit)
    requires WellKept(item) && e.CloseEdit? && ApplyClose(item, e).Write?
    ensures Evolves(item, ApplyClose(item, e).item) && WellKept(ApplyClose(item, e).item)
  {
    hide ParseRef, ValidAnswer, CarrierFits, CardinalityOf;
  }

  /** Every edit that is written moves a well-kept item along Evolves and keeps it well-kept. */
  lemma EditEvolves(item: Item, e: Edit)
    requires WellKept(item) && Precheck(e).None?
    ensures Apply(item, e).Write? ==> Evolves(item, Apply(item, e).item) && WellKept(Apply(item, e).item)
    ensures Apply(item, e).Keep? ==> Apply(item, e).item == item
  {
    hide ParseRef, ValidAnswer, CarrierFits, CardinalityOf, ApplyAnswer, ApplyClose;
    match e
    case AnswerEdit(_, _, _, _, _, _, _, _) =>
      AnswerNeverKeeps(item, e);
      if ApplyAnswer(item, e).Write? { AnswerEvolves(item, e); }
    case CloseEdit(_, _, _) =>
      CloseNeverKeeps(item, e);
      if ApplyClose(item, e).Write? { CloseEvolves(item, e); }
    case FlagEdit(_, _) => TrimEmpty();
    case _ =>
  }

  lemma RepushEvolves(item: Item, r: Request, now: Instant)
    requires item.state == Open && WellKept(item)
    ensures Evolves(item, Repushed(item, r, now)) && WellKept(Repushed(item, r, now))
  {
  }

  lemma SweepEvolves(item: Item, now: Instant)
    requires item.state != Closed && WellKept(item)
    ensures Evolves(item, SweptClosed(item, now)) && WellKept(SweptClosed(item, now))
  {
  }

  lemma NewItemWellKept(r: Request, id: string, now: Instant)
    requires ValidRequest(r)
    ensures WellKept(NewItem(r, id, now))
  {
  }

  /** Recorded answers name distinct existing tabs, each in the carrier its cardinality fixes. */
  lemma RecordedAnswersAreRoutable(item: Item, i: nat)
    requires WellKept(item) && i < |item.answers|
    ensures exists q :: q in item.questions && q.tab == item.answers[i].question
                        && CarrierFits(item.answers[i].answer, q.cardinality)
    ensures forall j :: 0 <= j < |item.answers| && j != i ==> item.answers[j].question != item.answers[i].question
    ensures item.answer.None?
  {
    CardinalityOfSound(item.questions, item.answers[i].question);
  }
}

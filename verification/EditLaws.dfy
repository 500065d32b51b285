/** What each write of an item means to its caller, and how two of them meet
    (pkg/attention-store-impl.go:1260-1540, pkg/attention-store-flag.go, pkg/attention-store-rate.go). */
module EditLaws {
  import opened Text
  import opened Calendar
  import opened Items

  // ---- pushes ----

  /** What an item still says of the request it was pushed with. */
  function RequestOf(item: Item): Request {
    Request(item.producerID, item.producerKind, item.provenanceClass, item.livenessRef, item.dedupKey,
            item.interruptClass, item.risk, item.payload, item.context, item.mechanism, item.options,
            item.cardinality, item.questions, item.expiresAt)
  }

  predicate Untouched(a: Item, b: Item) {
    SameEscalation(a, b) && SameFlag(a, b) && SameRating(a, b) && a.state == b.state && a.closedAt == b.closedAt
  }

  predicate SameFlag(a: Item, b: Item) { a.flagReason == b.flagReason && a.flaggedAt == b.flaggedAt }

  predicate SameRating(a: Item, b: Item) { a.rating == b.rating && a.ratedAt == b.ratedAt }

  /** A new item carries its whole request, and nothing an operator has done. */
  lemma NewItemCarriesTheRequest(r: Request, id: string, now: Instant)
    ensures var item := NewItem(r, id, now);
            && RequestOf(item) == r && item.itemID == id && item.createdAt == now && item.state == Open
            && Unanswered(item) && item.escalatedBy == "" && item.flagReason == "" && item.rating == ""
            && item.closedAt.None?
  {
  }

  /** A suppressed re-push takes six fields of the new request and the creation time, keeps the other
      declared fields, and leaves every escalation, flag, rating and answer field alone. */
  lemma RepushChangesOnlyTheAsk(item: Item, r: Request, now: Instant)
    ensures var next := Repushed(item, r, now);
            && SameIdentity(item, next) && SameAnswer(item, next) && Untouched(item, next) && next.createdAt == now
            && RequestOf(next) == r.(producerID := item.producerID, producerKind := item.producerKind,
                                     livenessRef := item.livenessRef, dedupKey := item.dedupKey, risk := item.risk,
                                     mechanism := item.mechanism, cardinality := item.cardinality,
                                     questions := item.questions)
  {
  }

  // ---- answers ----

  predicate MayAnswer(item: Item, resolvedBy: string) {
    item.state == Open || (item.state == Answered && item.mechanism == Permission && resolvedBy != "")
  }

  /** The answer content fits the item's questions. */
  predicate ContentFits(item: Item, answer: Option<Answer>, answers: seq<QuestionAnswer>) {
    && (answer.Some? ==>
         && item.questions == [] && answers == [] && ValidAnswer(answer.value)
         && CarrierFits(answer.value, item.cardinality))
    && (forall i :: 0 <= i < |answers| ==> answers[i].question != "" && ValidAnswer(answers[i].answer))
    && DistinctQuestions(answers) && AnswersMatch(item.questions, answers)
  }

  /** An answer is written exactly when the item may be answered and the content fits; it then records
      each thing its caller said and touches nothing else. */
  lemma AnswerMeaning(item: Item, e: Edit)
    requires e.AnswerEdit?
    ensures Apply(item, e).Write? <==> MayAnswer(item, e.resolvedBy) && ContentFits(item, e.answer, e.answers)
    ensures Apply(item, e).Write? ==>
              var next := Apply(item, e).item;
              && next.state == Answered && next.answeredAt == Some(e.now) && next.answeredBy == e.answeredBy
              && next.resolvedBy == e.resolvedBy && next.answer == e.answer && next.answers == e.answers
              && next.answeredClient == e.client
              && RequestOf(next) == RequestOf(item) && SameIdentity(item, next) && next.createdAt == item.createdAt
              && Untouched(item.(state := Answered), next)
  {
  }

  /** On a message or an ack the first answer wins: every later one is refused as already answered. */
  lemma FirstAnswerWins(item: Item, first: Edit, second: Edit)
    requires item.state == Open && item.mechanism != Permission && first.AnswerEdit? && second.AnswerEdit?
    requires Apply(item, first).Write?
    ensures Apply(Apply(item, first).item, second) == Refuse(AlreadyAnswered)
  {
    AnswerMeaning(item, first);
  }

  /** On a permission gate the arm's answer may follow the operator's: it attaches its resolver, while the
      operator's verdict stands and an absent route erases nothing. */
  lemma OperatorsVerdictStands(item: Item, board: Edit, arm: Edit)
    requires WellKept(item) && item.state == Open && item.mechanism == Permission
    requires board.AnswerEdit? && arm.AnswerEdit? && Apply(item, board).Write?
    ensures var answered := Apply(item, board).item;
            && answered.decision == board.decision && answered.requestID == board.route.requestID
            && answered.policy == board.route.policy
            && (arm.resolvedBy == "" ==> Apply(answered, arm) == Refuse(AlreadyAnswered))
            && (Apply(answered, arm).Write? ==>
                  var released := Apply(answered, arm).item;
                  && released.resolvedBy == arm.resolvedBy
                  && released.decision == (if board.decision != "" then board.decision else arm.decision)
                  && released.requestID ==
                       (if arm.route.requestID != "" then arm.route.requestID else board.route.requestID)
                  && released.policy == (if arm.route.policy != "" then arm.route.policy else board.route.policy))
  {
  }

  // ---- closes ----

  /** A close is refused on a closed item and, of a permission gate, when it names an arm; it records the
      arm and its client only on the row that was open, and keeps every recorded answer. */
  lemma CloseMeaning(item: Item, e: Edit)
    requires e.CloseEdit?
    ensures Apply(item, e).Write? <==>
              item.state == Answered || (item.state == Open && (item.mechanism != Permission || e.closedBy == ""))
    ensures Apply(item, e).Write? ==>
              var next := Apply(item, e).item;
              && next.state == Closed && next.closedAt == Some(e.now) && RequestOf(next) == RequestOf(item)
              && SameEscalation(item, next) && SameFlag(item, next) && SameRating(item, next)
              && next.answer == item.answer && next.answers == item.answers && next.decision == item.decision
              && next.answeredAt == item.answeredAt && next.resolvedBy == item.resolvedBy
              && (item.state == Answered ==> SameAnswer(item, next))
              && (item.state == Open ==>
                   (next.answeredBy == e.closedBy
                    && next.answeredClient == if e.closedBy != "" then e.closeClient else item.answeredClient))
  {
  }

  /** Once closed, an item only has its flag cleared and its rating changed. */
  lemma ClosedIsFinal(item: Item, e: Edit)
    requires item.state == Closed
    ensures match e
            case AnswerEdit(_, _, _, _, _, _, _, _) => Apply(item, e) == Refuse(IllegalTransition)
            case CloseEdit(_, _, _) => Apply(item, e) == Refuse(IllegalTransition)
            case EscalateEdit(_, _) => Apply(item, e) == Refuse(ItemNotOpen)
            case FlagEdit(_, _) => Apply(item, e) == Refuse(ItemNotOpen)
            case UnflagEdit => Apply(item, e) == Write(item.(flagReason := "", flaggedAt := None))
            case RateEdit(_, _) =>
              Apply(item, e).Write? && Apply(item, e).item.(rating := item.rating, ratedAt := item.ratedAt) == item
  {
  }

  // ---- escalation, flag, rating ----

  /** An escalation is a claim: the session that made it may repeat it without moving its time, every
      other session is refused, and the item is otherwise as it was. */
  lemma EscalationIsAClaim(item: Item, session: string, now: Instant, other: string, later: Instant)
    requires WellKept(item) && item.state == Open && item.escalatedBy == "" && IsSessionID(session)
    ensures var claimed := Apply(item, EscalateEdit(session, now));
            && claimed.Write? && claimed.item.(escalatedBy := "", escalatedAt := None) == item
            && claimed.item.escalatedBy == session && claimed.item.escalatedAt == Some(now)
            && Apply(claimed.item, EscalateEdit(other, later)) ==
                 if other == session then Keep(claimed.item) else Refuse(AlreadyEscalated)
  {
  }

  /** Unflagging undoes a flag, at once or after the item has been answered or closed with it; of two flags
      the later stands. */
  lemma UnflagUndoesFlag(item: Item, reason: string, now: Instant, again: string, later: Instant, e: Edit)
    requires WellKept(item) && item.state == Open && item.flagReason == "" && (e.AnswerEdit? || e.CloseEdit?)
    ensures var flagged := Apply(item, FlagEdit(reason, now));
            && flagged.Write? && flagged.item.flagReason == reason && flagged.item.flaggedAt == Some(now)
            && Apply(flagged.item, UnflagEdit) == Write(item) && Apply(item, UnflagEdit) == Write(item)
            && Apply(flagged.item, FlagEdit(again, later)) == Apply(item, FlagEdit(again, later))
            && (Apply(flagged.item, e).Write? <==> Apply(item, e).Write?)
            && (Apply(item, e).Write? ==>
                  && SameFlag(Apply(flagged.item, e).item, flagged.item)
                  && Apply(Apply(flagged.item, e).item, UnflagEdit) == Write(Apply(item, e).item))
  {
  }

  /** The empty rating undoes a rating; of two ratings the later stands. */
  lemma RatingIsLastWriterWins(item: Item, rating: string, now: Instant, again: string, later: Instant)
    requires WellKept(item)
    ensures var rated := Apply(item, RateEdit(rating, now));
            && rated.Write? && rated.item.rating == rating
            && (rated.item.ratedAt == if rating == "" then None else Some(now))
            && Apply(rated.item, RateEdit(again, later)) == Apply(item, RateEdit(again, later))
            && (item.rating == "" ==> Apply(rated.item, RateEdit("", later)) == Write(item))
  {
  }

  // ---- laws over several writes ----

  /** Of an answer and a close that reach an open item: the answer first, both are recorded and the close
      takes nothing from the answer; the close first, the answer and any second close are refused. */
  lemma AnswerAndCloseRace(item: Item, answer: Edit, close: Edit, again: Edit)
    requires item.state == Open && answer.AnswerEdit? && close.CloseEdit? && again.CloseEdit?
    requires Apply(item, answer).Write? && Apply(item, close).Write?
    ensures var answered := Apply(item, answer).item;
            var closed := Apply(item, close).item;
            && Apply(answered, close).Write? && SameAnswer(answered, Apply(answered, close).item)
            && Apply(answered, close).item.closedAt == Some(close.now)
            && Apply(closed, answer) == Refuse(IllegalTransition) && Apply(closed, again) == Refuse(IllegalTransition)
  {
    AnswerMeaning(item, answer);
    CloseMeaning(item, close);
    CloseMeaning(Apply(item, answer).item, close);
    ClosedIsFinal(Apply(item, close).item, answer);
    ClosedIsFinal(Apply(item, close).item, again);
  }

  /** The item after one call: a refused or unchanging call leaves it. */
  function Edited(item: Item, e: Edit): Item {
    if Precheck(e).Some? then item
    else match Apply(item, e) case Write(next) => next case _ => item
  }

  function EditedAll(item: Item, edits: seq<Edit>): Item {
    if edits == [] then item else Edited(EditedAll(item, edits[..|edits| - 1]), edits[|edits| - 1])
  }

  /** The rating the last accepted call left, with its time. */
  function LastRating(item: Item, edits: seq<Edit>): (string, Option<Instant>) {
    if edits == [] then (item.rating, item.ratedAt)
    else
      match edits[|edits| - 1]
      case RateEdit(rating, now) =>
        if rating in {"", "up", "down"} then (rating, if rating == "" then None else Some(now))
        else LastRating(item, edits[..|edits| - 1])
      case _ => LastRating(item, edits[..|edits| - 1])
  }

  function LastFlag(item: Item, edits: seq<Edit>): (string, Option<Instant>) {
    if UnflagEdit in edits then ("", None) else (item.flagReason, item.flaggedAt)
  }

  /** However many calls of whatever kind reach a closed item, it differs at most in the rating the last
      accepted rating left and in a flag some call cleared. */
  lemma {:induction false} ClosedForGood(item: Item, edits: seq<Edit>)
    requires item.state == Closed
    ensures EditedAll(item, edits) ==
              item.(rating := LastRating(item, edits).0, ratedAt := LastRating(item, edits).1,
                    flagReason := LastFlag(item, edits).0, flaggedAt := LastFlag(item, edits).1)
  {
    if edits != [] {
      var front, last := edits[..|edits| - 1], edits[|edits| - 1];
      assert edits == front + [last];
      ClosedForGood(item, front);
      ClosedIsFinal(EditedAll(item, front), last);
    }
  }

  /** Any calls at all: a well-kept item stays well-kept and only evolves. */
  lemma {:induction false} AnyCallsEvolve(item: Item, edits: seq<Edit>)
    requires WellKept(item)
    ensures WellKept(EditedAll(item, edits)) && Evolves(item, EditedAll(item, edits))
  {
    hide WellKept, Evolves, Apply, Precheck;
    if edits == [] { EvolvesReflexive(item); } else {
      var before, last := EditedAll(item, edits[..|edits| - 1]), edits[|edits| - 1];
      AnyCallsEvolve(item, edits[..|edits| - 1]);
      if Precheck(last).None? && Apply(before, last).Write? {
        EditEvolves(before, last);
        EvolvesTransitive(item, before, Apply(before, last).item);
      }
    }
  }
}

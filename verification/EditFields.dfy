/** What the store accepts, told by the fields of requests, items and calls (pkg/attention-store.go:312-420,
    pkg/attention-item.go:345-561, pkg/answer.go:58-147, pkg/attention-store-impl.go:1260-1540). */
module EditFields {
  import opened Text
  import opened Calendar
  import opened Items
  import opened Indexes
  import opened Transactions
  import opened ReadFields
  import opened EditLaws

  // ---- answers ----

  /** An answer as a question of the cardinality takes it: one pick as a value, a Multiple's picks as a
      list, a text as a value, a skip or a hidden answer as nothing. */
  predicate AnswerOk(a: Answer, cardinality: Cardinality) {
    match a.kind
    case OptionKind =>
      if cardinality == Multiple
      then a.value == "" && a.values != [] && forall i :: 0 <= i < |a.values| ==> a.values[i] != ""
      else a.value != "" && a.values == []
    case TextKind => a.value != "" && a.values == []
    case SkipKind => a.value == "" && a.values == []
    case HiddenKind => a.value == "" && a.values == []
    case NoKind => a.values == []
  }

  lemma AnswerShape(a: Answer, cardinality: Cardinality)
    ensures ValidAnswer(a) && CarrierFits(a, cardinality) <==> AnswerOk(a, cardinality)
  {
  }

  /** The question a tab names is the last one with it. */
  predicate LastWithTab(questions: seq<Question>, tab: string, q: int) {
    0 <= q < |questions| && questions[q].tab == tab && forall r :: q < r < |questions| ==> questions[r].tab != tab
  }

  lemma {:induction false} CardinalityIsLast(questions: seq<Question>, tab: string)
    ensures CardinalityOf(questions, tab).Some? <==> exists q :: LastWithTab(questions, tab, q)
    ensures forall q :: LastWithTab(questions, tab, q) ==>
              CardinalityOf(questions, tab) == Some(questions[q].cardinality)
  {
    if questions != [] {
      var front, n := questions[..|questions| - 1], |questions| - 1;
      CardinalityIsLast(front, tab);
      if questions[n].tab == tab { assert LastWithTab(questions, tab, n); }
      else {
        forall q ensures LastWithTab(questions, tab, q) <==> LastWithTab(front, tab, q) {
          if LastWithTab(front, tab, q) {
            assert questions[q] == front[q];
            forall r | q < r < |questions| ensures questions[r].tab != tab {
              if r < n { assert front[r] == questions[r]; }
            }
          }
          if LastWithTab(questions, tab, q) {
            assert front[q] == questions[q] && forall r :: q < r < n ==> front[r] == questions[r];
          }
        }
      }
    }
  }

  /** The entry answers an existing tab in the shape its question takes. */
  ghost predicate EntryOk(questions: seq<Question>, entry: QuestionAnswer) {
    entry.question != ""
    && exists q :: LastWithTab(questions, entry.question, q) && AnswerOk(entry.answer, questions[q].cardinality)
  }

  /** An answer is accepted: the item is open, or an answered permission gate answered by a resolver; it
      carries one answer for an item without questions, or one entry a tab, each in its shape. */
  ghost predicate MayBeAnswered(item: Item, e: Edit)
    requires e.AnswerEdit?
  {
    && (item.state == Open || (item.state == Answered && item.mechanism == Permission && e.resolvedBy != ""))
    && (e.answer.Some? ==>
          item.questions == [] && e.answers == [] && AnswerOk(e.answer.value, item.cardinality))
    && (forall i :: 0 <= i < |e.answers| ==> EntryOk(item.questions, e.answers[i]))
    && (forall i, j :: 0 <= i < j < |e.answers| ==> e.answers[i].question != e.answers[j].question)
  }

  lemma EntryByFields(questions: seq<Question>, entry: QuestionAnswer)
    ensures EntryOk(questions, entry) <==>
              entry.question != "" && ValidAnswer(entry.answer) && CardinalityOf(questions, entry.question).Some?
              && CarrierFits(entry.answer, CardinalityOf(questions, entry.question).value)
  {
    hide ValidAnswer, CarrierFits, AnswerOk, CardinalityOf, LastWithTab;
    CardinalityIsLast(questions, entry.question);
    if CardinalityOf(questions, entry.question).Some? {
      AnswerShape(entry.answer, CardinalityOf(questions, entry.question).value);
    }
  }

  lemma AnswerByFields(item: Item, e: Edit)
    requires e.AnswerEdit?
    ensures Apply(item, e).Write? <==> MayBeAnswered(item, e)
  {
    hide Apply, ValidAnswer, CarrierFits, AnswerOk, EntryOk, CardinalityOf;
    AnswerMeaning(item, e);
    if e.answer.Some? { AnswerShape(e.answer.value, item.cardinality); }
    forall i | 0 <= i < |e.answers| ensures EntryOk(item.questions, e.answers[i]) <==>
        e.answers[i].question != "" && ValidAnswer(e.answers[i].answer)
        && CardinalityOf(item.questions, e.answers[i].question).Some?
        && CarrierFits(e.answers[i].answer, CardinalityOf(item.questions, e.answers[i].question).value)
    {
      EntryByFields(item.questions, e.answers[i]);
    }
  }

  // ---- every call ----

  predicate HexText(s: string) { forall i :: 0 <= i < |s| ==> s[i] in "0123456789abcdef" }

  ghost predicate SessionText(s: string) {
    exists a, b, c, d, e ::
      && |a| == 8 && |b| == 4 && |c| == 4 && |d| == 4 && |e| == 12
      && HexText(a) && HexText(b) && HexText(c) && HexText(d) && HexText(e)
      && s == a + "-" + b + "-" + c + "-" + d + "-" + e
  }

  lemma HexDigits(c: char)
    ensures IsHex(c) <==> c in "0123456789abcdef"
  {
    assert "0123456789abcdef" == ['0', '1', '2', '3', '4', '5', '6', '7', '8', '9', 'a', 'b', 'c', 'd', 'e', 'f'];
  }

  lemma SessionIs(s: string)
    ensures IsSessionID(s) <==> SessionText(s)
  {
    hide IsHex;
    forall c ensures IsHex(c) <==> c in "0123456789abcdef" { HexDigits(c); }
    if IsSessionID(s) { GroupsOf(s); }
    if SessionText(s) { GroupsJoin(s); }
  }

  lemma GroupsOf(s: string)
    requires IsSessionID(s) && forall c :: IsHex(c) <==> c in "0123456789abcdef"
    ensures SessionText(s)
  {
    hide IsHex;
    var a, b, c, d, e := s[..8], s[9..13], s[14..18], s[19..23], s[24..];
    assert s == a + "-" + b + "-" + c + "-" + d + "-" + e;
    assert HexText(a) && HexText(b) && HexText(c) && HexText(d) && HexText(e);
  }

  lemma GroupsJoin(s: string)
    requires SessionText(s) && forall c :: IsHex(c) <==> c in "0123456789abcdef"
    ensures IsSessionID(s)
  {
    hide IsHex;
    var a, b, c, d, e :| |a| == 8 && |b| == 4 && |c| == 4 && |d| == 4 && |e| == 12
      && HexText(a) && HexText(b) && HexText(c) && HexText(d) && HexText(e)
      && s == a + "-" + b + "-" + c + "-" + d + "-" + e;
    forall i | 0 <= i < 36 ensures if i in {8, 13, 18, 23} then s[i] == '-' else IsHex(s[i]) {
      if i < 8 { assert s[i] == a[i]; }
      else if 8 < i < 13 { assert s[i] == b[i - 9]; }
      else if 13 < i < 18 { assert s[i] == c[i - 14]; }
      else if 18 < i < 23 { assert s[i] == d[i - 19]; }
      else if 23 < i { assert s[i] == e[i - 24]; }
    }
  }

  /** The call is accepted on the stored item. */
  ghost predicate Accepts(item: Item, e: Edit) {
    match e
    case AnswerEdit(_, _, _, _, _, _, _, _) => MayBeAnswered(item, e)
    case CloseEdit(arm, _, _) =>
      item.state == Answered || (item.state == Open && (item.mechanism != Permission || arm == ""))
    case EscalateEdit(session, _) => item.state == Open && (item.escalatedBy == "" || item.escalatedBy == session)
    case FlagEdit(_, _) => item.state == Open
    case UnflagEdit => true
    case RateEdit(_, _) => true
  }

  /** The call's own arguments are refused before anything is read. */
  ghost predicate Malformed(e: Edit) {
    match e
    case EscalateEdit(session, _) => !SessionText(session)
    case FlagEdit(reason, _) => forall i :: 0 <= i < |reason| ==> IsSpace(reason[i])
    case RateEdit(rating, _) => rating != "" && rating != "up" && rating != "down"
    case _ => false
  }

  /** Which calls on a stored item go through, and which error each other one gets. */
  lemma EditByFields(db: Db, id: string, e: Edit)
    ensures EditTx(db, id, e).Ok? <==> !Malformed(e) && id in db.items && Accepts(db.items[id], e)
    ensures Malformed(e) ==>
              EditTx(db, id, e) == Err(match e case EscalateEdit(_, _) => InvalidSessionID
                                               case FlagEdit(_, _) => FlagReasonRequired case _ => RatingInvalid)
    ensures !Malformed(e) && id !in db.items ==> EditTx(db, id, e) == Err(ItemNotFound)
    ensures !Malformed(e) && id in db.items && !Accepts(db.items[id], e) ==>
              var state := db.items[id].state;
              match e
              case EscalateEdit(_, _) =>
                EditTx(db, id, e) == Err(if state != Open then ItemNotOpen else AlreadyEscalated)
              case FlagEdit(_, _) => EditTx(db, id, e) == Err(ItemNotOpen)
              case CloseEdit(_, _, _) =>
                EditTx(db, id, e) == Err(if state == Closed then IllegalTransition else PermissionCloseWithoutDecision)
              case AnswerEdit(_, _, _, _, _, _, _, _) =>
                EditTx(db, id, e) ==
                  Err(if state == Closed then IllegalTransition
                      else if state == Answered && (db.items[id].mechanism != Permission || e.resolvedBy == "")
                      then AlreadyAnswered else ValidationFailed)
              case _ => true
  {
    hide Put, MayBeAnswered, SessionText, IsSessionID, ValidSingleAnswer, ValidAnswerList, IsSpace, TrimSpace;
    match e {
      case EscalateEdit(session, _) => SessionIs(session);
      case FlagEdit(reason, _) => BlankIsAllSpace(reason);
      case AnswerEdit(_, _, _, _, _, _, _, _) => if id in db.items { AnswerByFields(db.items[id], e); }
      case CloseEdit(_, _, _) => if id in db.items { CloseMeaning(db.items[id], e); }
      case _ =>
    }
  }

  // ---- requests ----

  /** Options as a question of the cardinality takes them. */
  predicate OptionsOk(options: seq<AnswerOption>, cardinality: Cardinality) {
    && (forall i :: 0 <= i < |options| ==> options[i].name != "")
    && (cardinality != Multiple ==>
          forall i, j :: 0 <= i < j < |options| ==> !(options[i].recommended && options[j].recommended))
    && (forall i, j :: 0 <= i < j < |options| ==> !(options[i].exclusive && options[j].exclusive))
  }

  lemma {:induction false} CountsOne(options: seq<AnswerOption>)
    ensures CountIf(options, true) == 0 <==> forall i :: 0 <= i < |options| ==> !options[i].exclusive
    ensures CountIf(options, false) == 0 <==> forall i :: 0 <= i < |options| ==> !options[i].recommended
    ensures CountIf(options, true) <= 1 <==>
              forall i, j :: 0 <= i < j < |options| ==> !(options[i].exclusive && options[j].exclusive)
    ensures CountIf(options, false) <= 1 <==>
              forall i, j :: 0 <= i < j < |options| ==> !(options[i].recommended && options[j].recommended)
  {
    if options != [] {
      var rest := options[1..];
      CountsOne(rest);
      assert forall i :: 0 <= i < |rest| ==> rest[i] == options[i + 1];
      assert forall i :: 0 < i < |options| ==> options[i] == rest[i - 1];
    }
  }

  ghost predicate RefOk(ref: string) {
    exists v :: v != "" && (ref == "session:" + v || ref == "owner:" + v || ref == "heartbeat:" + v)
  }

  lemma RefByText(ref: string)
    ensures ParseRef(ref) != BadRef <==> RefOk(ref)
  {
    hide ParseRef;
    forall v
      ensures ParseRef(ref) == SessionRef(v) <==> v != "" && ref == "session:" + v
      ensures ParseRef(ref) == OwnerRef(v) <==> v != "" && ref == "owner:" + v
      ensures ParseRef(ref) == HeartbeatRef(v) <==> v != "" && ref == "heartbeat:" + v
    {
      RefText(ref, v);
    }
    match ParseRef(ref)
    case SessionRef(v) => RefText(ref, v);
    case OwnerRef(v) => RefText(ref, v);
    case HeartbeatRef(v) => RefText(ref, v);
    case BadRef =>
  }

  /** A push the store takes in. */
  ghost predicate RequestOk(r: Request) {
    && r.producerID != "" && r.dedupKey != "" && r.interruptClass != "" && r.payload != "" && RefOk(r.livenessRef)
    && (r.mechanism != Message ==> r.options == [] && r.cardinality == Unset && r.questions == [])
    && OptionsOk(r.options, r.cardinality)
    && (forall i :: 0 <= i < |r.questions| ==>
          && r.questions[i].tab != "" && r.questions[i].payload != ""
          && OptionsOk(r.questions[i].options, r.questions[i].cardinality))
    && (forall i, j :: 0 <= i < j < |r.questions| ==> r.questions[i].tab != r.questions[j].tab)
    && r.expiresAt != Some(DaysBefore(1) * NS_PER_DAY)
  }

  lemma OptionsByFields(options: seq<AnswerOption>, cardinality: Cardinality)
    ensures ValidOptions(options, cardinality) <==> OptionsOk(options, cardinality)
  {
    hide CountIf;
    CountsOne(options);
  }

  lemma RequestByFields(r: Request)
    ensures ValidRequest(r) <==> RequestOk(r)
  {
    hide ParseRef, RefOk, ValidOptions, OptionsOk;
    RefByText(r.livenessRef);
    OptionsByFields(r.options, r.cardinality);
    OptionsByFields([], r.cardinality);
    NoOptions(r.cardinality);
    forall i | 0 <= i < |r.questions|
      ensures ValidOptions(r.questions[i].options, r.questions[i].cardinality) <==>
                OptionsOk(r.questions[i].options, r.questions[i].cardinality)
    {
      OptionsByFields(r.questions[i].options, r.questions[i].cardinality);
    }
    YearStep(0);
  }

  lemma NoOptions(cardinality: Cardinality)
    ensures OptionsOk([], cardinality)
  {
  }

  /** A push is refused as invalid exactly for its request; a valid one fails only on a stored row with a
      ref of no model. */
  lemma PushByFields(db: Db, r: Request, id: string, now: Instant, gone: bool)
    ensures PushTx(db, r, id, now, gone).result == Err(ValidationFailed) <==> !RequestOk(r)
    ensures PushTx(db, r, id, now, gone).result.Err? ==> PushTx(db, r, id, now, gone).db == db
  {
    hide Put, Ensure, RequestOk, ValidRequest, ParseRef;
    RequestByFields(r);
  }
}

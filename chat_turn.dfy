/**
 * One `/chat` turn: load or create the session, count the turn, pick the
 * category once, merge the collected fields, ask for the next missing field
 * or else retrieve, decide on escalation, generate an answer and check it
 * against the guardrails. Retrieval and the language model are parameters;
 * the transcript and ticket tables are append-only logs.
 */
module ChatTurn {
  import opened Options
  import opened Dicts
  import opened Schemas
  import Config
  import Session
  import Engine
  import Guardrails
  import FieldExtractor
  import TicketBuilder

  /** A row of the messages table. */
  datatype Message = Message(sessionId: string, role: string, content: string, citations: seq<Citation>)

  /** A row of the tickets table: who opened it, for which session, the ticket and its rendering. */
  datatype TicketRow = TicketRow(orgId: string, userId: string, sessionId: string, ticket: Ticket, rendered: string)

  /** The chat transcript and the tickets opened, in the order they were written. */
  class Transcript {
    var messages: seq<Message>
    var tickets: seq<TicketRow>

    constructor ()
      ensures messages == [] && tickets == []
    {
      messages := [];
      tickets := [];
    }

    /** `insert_message`. */
    method InsertMessage(m: Message)
      modifies this
      ensures messages == old(messages) + [m] && tickets == old(tickets)
    {
      messages := messages + [m];
    }

    /** `insert_ticket`. */
    method InsertTicket(row: TicketRow)
      modifies this
      ensures tickets == old(tickets) + [row] && messages == old(messages)
    {
      tickets := tickets + [row];
    }
  }

  /**
   * What asking the language model comes to: a completion; an `LLMError`
   * raised inside the handler's `try`, with its message; or any other failure
   * (the missing-key error `get_llm` raises before the `try`, a transport or
   * JSON decoding error, a completion that is not a string), which escapes
   * the handler.
   */
  datatype Completion = Completed(text: string) | ProviderError(detail: string) | Crashed

  /** The HTTP result of a turn: a chat response, or an error status with its detail. */
  datatype Outcome = Replied(response: ChatResponse) | Failed(status: int, detail: string)

  /** An exception that escapes the handler: the server answers 500. */
  const InternalError := Failed(500, "Internal Server Error")

  /**
   * What a turn does, as values: the session state it ends with, whether that
   * state is saved, the messages and tickets it writes, and its outcome.
   */
  datatype TurnResult = TurnResult(
    state: Session.SessionRecord,
    saved: bool,
    logged: seq<Message>,
    tickets: seq<TicketRow>,
    outcome: Outcome)

  /** The session a request opens: the one it names when it names one, else a fresh one stored under `freshId`. */
  function Opened(rows: map<string, Session.SessionRecord>, req: ChatRequest, freshId: string)
    : (r: (string, Session.SessionRecord, map<string, Session.SessionRecord>))
    ensures r.0 in r.2 && r.1 == r.2[r.0]
  {
    if req.sessionId.Some? && req.sessionId.value != "" then
      var sid := req.sessionId.value;
      var (rec, rows') := Session.Lookup(rows, sid);
      (sid, rec, rows')
    else
      (freshId, Session.Fresh(), Session.Upsert(rows, freshId, Session.Fresh()))
  }

  /** `not state.category`. */
  predicate NoCategory(category: Option<string>) {
    category.None? || category.value == ""
  }

  /** The state after the bookkeeping every turn does: one more turn, the category once, the merged fields. */
  function Prepared(rec: Session.SessionRecord, req: ChatRequest): (r: Session.SessionRecord)
    ensures r.category.Some? && r.category.value != ""
  {
    var cat := if NoCategory(rec.category) then Some(Engine.FlowRegistry.Classify(req.message)) else rec.category;
    Session.SessionRecord(rec.turns + 1, cat, FieldExtractor.Merged(rec.collected, req), rec.stepsAttempted)
  }

  /** The required field the gate asks for, if any: `if missing:` treats a blank name as none. */
  function Gate(registry: Engine.FlowRegistry, rec: Session.SessionRecord): (r: Option<string>)
    reads registry
    requires rec.category.Some?
    ensures r.Some? ==> r.value != ""
  {
    var m := Engine.NextMissingField(registry.Get(rec.category.value), rec.collected);
    if m.Some? && m.value != "" then m else None
  }

  function UserMessage(sid: string, req: ChatRequest): Message {
    Message(sid, "user", req.message, [])
  }

  /** A turn that opens `ticket`: it is rendered, stored, logged as the assistant's reply and returned. */
  function TicketTurn(sid: string, rec: Session.SessionRecord, req: ChatRequest, ticket: Ticket): TurnResult {
    var rendered := TicketBuilder.Rendered(ticket);
    TurnResult(rec, true,
      [UserMessage(sid, req), Message(sid, "assistant", rendered, [])],
      [TicketRow(req.orgId, req.userId, sid, ticket, rendered)],
      Replied(TicketReply(TicketResponse(ticket, rendered))))
  }

  /** A turn that stops after logging the user's message: nothing else is written and the session is not saved. */
  function Unsaved(sid: string, rec: Session.SessionRecord, req: ChatRequest, outcome: Outcome): TurnResult {
    TurnResult(rec, false, [UserMessage(sid, req)], [], outcome)
  }

  /** A turn that opens the ticket built, or fails with 500 when `Ticket(...)` raised. */
  function TicketOrError(sid: string, rec: Session.SessionRecord, req: ChatRequest, built: Option<Ticket>): TurnResult {
    match built
    case Some(ticket) => TicketTurn(sid, rec, req, ticket)
    case None => Unsaved(sid, rec, req, InternalError)
  }

  /** One turn on the session `sid`, whose stored state is `rec0`. */
  function Step(sid: string, rec0: Session.SessionRecord, req: ChatRequest, registry: Engine.FlowRegistry,
                settings: Config.Settings,
                retrieve: (string, Dict<Value>) -> (seq<Citation>, real),
                complete: (string, Dict<Value>, seq<Citation>) -> Completion): TurnResult
    reads registry
  {
    Reply(sid, Prepared(rec0, req), req, registry, settings, retrieve, complete)
  }

  /** The rest of a turn once the state is prepared: the missing-field gate, else retrieval and what follows. */
  function Reply(sid: string, rec: Session.SessionRecord, req: ChatRequest, registry: Engine.FlowRegistry,
                 settings: Config.Settings,
                 retrieve: (string, Dict<Value>) -> (seq<Citation>, real),
                 complete: (string, Dict<Value>, seq<Citation>) -> Completion): (r: TurnResult)
    reads registry
    requires rec.category.Some?
    ensures |r.logged| >= 1 && r.logged[0] == UserMessage(sid, req) && r.state == rec
  {
    var gate := Gate(registry, rec);
    if gate.Some? then
      var q := Engine.QuestionFor(registry.Get(rec.category.value), gate.value);
      TurnResult(rec, true, [UserMessage(sid, req), Message(sid, "assistant", q, [])], [],
        Replied(Answer(AnswerResponse(q, [], Some(q), rec.collected))))
    else
      var (cits, best) := retrieve(req.message, rec.collected);
      Retrieved(sid, rec, req, settings, cits, best, complete)
  }

  /** After retrieval: escalate, or generate an answer and check it. */
  function Retrieved(sid: string, rec: Session.SessionRecord, req: ChatRequest, settings: Config.Settings,
                     cits: seq<Citation>, best: real,
                     complete: (string, Dict<Value>, seq<Citation>) -> Completion): (r: TurnResult)
    ensures |r.logged| >= 1 && r.logged[0] == UserMessage(sid, req) && r.state == rec
  {
    var (esc, reason) := Guardrails.ShouldEscalate(settings, rec.turns, best);
    if esc then
      TicketOrError(sid, rec, req, TicketBuilder.EscalationTicket(rec, req, cits, reason))
    else
      match complete(req.message, rec.collected, cits)
      case ProviderError(detail) => Unsaved(sid, rec, req, Failed(502, detail))
      case Crashed => Unsaved(sid, rec, req, InternalError)
      case Completed(content) =>
        var gr := Guardrails.CheckResponse(content);
        if !gr.ok then
          TicketOrError(sid, rec, req, TicketBuilder.GuardrailTicket(rec, req, cits, gr.reason))
        else
          TurnResult(rec, true, [UserMessage(sid, req), Message(sid, "assistant", content, cits)], [],
            Replied(Answer(AnswerResponse(content, cits, None, rec.collected))))
  }

  /** The `/chat` handler. */
  method Chat(store: Session.SessionStore, log: Transcript, registry: Engine.FlowRegistry,
              settings: Config.Settings, req: ChatRequest, freshId: string,
              retrieve: (string, Dict<Value>) -> (seq<Citation>, real),
              complete: (string, Dict<Value>, seq<Citation>) -> Completion)
    returns (outcome: Outcome)
    modifies store, log
    ensures var (sid, rec0, rows1) := Opened(old(store.rows), req, freshId);
      var r := Step(sid, rec0, req, registry, settings, retrieve, complete);
      && outcome == r.outcome
      && store.rows == (if r.saved then Session.Upsert(rows1, sid, r.state) else rows1)
      && log.messages == old(log.messages) + r.logged
      && log.tickets == old(log.tickets) + r.tickets
  {
    ghost var start := Opened(store.rows, req, freshId);
    ghost var messages0 := log.messages;
    var state := Begin(store, req, freshId);
    ghost var rec := state.Record();
    ghost var r := Reply(state.sessionId, rec, req, registry, settings, retrieve, complete);
    assert r == Step(start.0, start.1, req, registry, settings, retrieve, complete);
    log.InsertMessage(Message(state.sessionId, "user", req.message, []));
    outcome := Respond(store, log, registry, settings, state, req, retrieve, complete);
    LogThenRest(messages0, r.logged);
  }

  /** Logging the first message, then the rest, logs them all. */
  lemma LogThenRest<T>(before: seq<T>, logged: seq<T>)
    requires logged != []
    ensures before + [logged[0]] + logged[1..] == before + logged
  {
    assert logged == [logged[0]] + logged[1..];
  }

  /** Opens the session, counts the turn, picks the category if there is none yet and merges the collected fields. */
  method Begin(store: Session.SessionStore, req: ChatRequest, freshId: string) returns (state: Session.SessionState)
    modifies store
    ensures fresh(state)
    ensures var (sid, rec0, rows1) := Opened(old(store.rows), req, freshId);
      && state.sessionId == sid && state.Record() == Prepared(rec0, req) && store.rows == rows1
  {
    if req.sessionId.Some? && req.sessionId.value != "" {
      state := store.LoadSession(req.sessionId.value);
    } else {
      state := store.NewSession(freshId);
    }
    ghost var rec0 := state.Record();
    state.turns := state.turns + 1;
    if state.category.None? || state.category.value == "" {
      state.category := Some(Engine.FlowRegistry.Classify(req.message));
    }
    FieldExtractor.MergeCollected(state, req);
  }

  /** Everything `/chat` does after logging the user's message. */
  method Respond(store: Session.SessionStore, log: Transcript, registry: Engine.FlowRegistry,
                 settings: Config.Settings, state: Session.SessionState, req: ChatRequest,
                 retrieve: (string, Dict<Value>) -> (seq<Citation>, real),
                 complete: (string, Dict<Value>, seq<Citation>) -> Completion)
    returns (outcome: Outcome)
    requires state.category.Some?
    modifies store, log
    ensures var r := Reply(state.sessionId, state.Record(), req, registry, settings, retrieve, complete);
      && outcome == r.outcome
      && store.rows == (if r.saved then Session.Upsert(old(store.rows), state.sessionId, r.state) else old(store.rows))
      && log.messages == old(log.messages) + r.logged[1..]
      && log.tickets == old(log.tickets) + r.tickets
  {
    var flow := registry.Get(state.category.value);
    var missing := Engine.NextMissingField(flow, state.collected);
    if missing.Some? && missing.value != "" {
      var q := Engine.QuestionFor(flow, missing.value);
      log.InsertMessage(Message(state.sessionId, "assistant", q, []));
      store.SaveSession(state);
      return Replied(Answer(AnswerResponse(q, [], Some(q), state.collected)));
    }
    var (cits, best) := retrieve(req.message, state.collected);
    outcome := Decide(store, log, settings, state, req, cits, best, complete);
  }

  /** Escalates, or asks the model and passes its answer through the guardrails. */
  method Decide(store: Session.SessionStore, log: Transcript, settings: Config.Settings,
                state: Session.SessionState, req: ChatRequest, cits: seq<Citation>, best: real,
                complete: (string, Dict<Value>, seq<Citation>) -> Completion)
    returns (outcome: Outcome)
    modifies store, log
    ensures var r := Retrieved(state.sessionId, state.Record(), req, settings, cits, best, complete);
      && outcome == r.outcome
      && store.rows == (if r.saved then Session.Upsert(old(store.rows), state.sessionId, r.state) else old(store.rows))
      && log.messages == old(log.messages) + r.logged[1..]
      && log.tickets == old(log.tickets) + r.tickets
  {
    var (esc, escReason) := Guardrails.ShouldEscalate(settings, state.turns, best);
    if esc {
      var built := TicketBuilder.EscalationTicket(state.Record(), req, cits, escReason);
      if built.None? {
        return InternalError;
      }
      outcome := OpenTicket(store, log, state, req, built.value);
      return;
    }
    var completion := complete(req.message, state.collected, cits);
    if completion.ProviderError? {
      return Failed(502, completion.detail);
    }
    if completion.Crashed? {
      return InternalError;
    }
    var content := completion.text;
    var gr := Guardrails.CheckResponse(content);
    if !gr.ok {
      var built := TicketBuilder.GuardrailTicket(state.Record(), req, cits, gr.reason);
      if built.None? {
        return InternalError;
      }
      outcome := OpenTicket(store, log, state, req, built.value);
      return;
    }
    log.InsertMessage(Message(state.sessionId, "assistant", content, cits));
    store.SaveSession(state);
    outcome := Replied(Answer(AnswerResponse(content, cits, None, state.collected)));
  }

  /** Renders `ticket`, stores it, logs the rendering as the reply, saves the session and answers with the ticket. */
  method OpenTicket(store: Session.SessionStore, log: Transcript, state: Session.SessionState, req: ChatRequest, ticket: Ticket)
    returns (outcome: Outcome)
    modifies store, log
    ensures var r := TicketTurn(state.sessionId, state.Record(), req, ticket);
      && outcome == r.outcome
      && store.rows == Session.Upsert(old(store.rows), state.sessionId, state.Record())
      && log.messages == old(log.messages) + r.logged[1..]
      && log.tickets == old(log.tickets) + r.tickets
  {
    var rendered := TicketBuilder.RenderTicket(ticket);
    log.InsertTicket(TicketRow(req.orgId, req.userId, state.sessionId, ticket, rendered));
    log.InsertMessage(Message(state.sessionId, "assistant", rendered, []));
    store.SaveSession(state);
    outcome := Replied(TicketReply(TicketResponse(ticket, rendered)));
  }

  // ---------------------------------------------------------------------------
  // What a turn guarantees
  // ---------------------------------------------------------------------------

  /**
   * Every turn counts exactly one more turn, assigns the category only when
   * the session has none (keeping it otherwise), merges the collected fields
   * and logs the user's message first.
   */
  lemma TurnBookkeeping(sid: string, rec0: Session.SessionRecord, req: ChatRequest, registry: Engine.FlowRegistry,
                        settings: Config.Settings,
                        retrieve: (string, Dict<Value>) -> (seq<Citation>, real),
                        complete: (string, Dict<Value>, seq<Citation>) -> Completion)
    ensures var r := Step(sid, rec0, req, registry, settings, retrieve, complete);
      && r.state.turns == rec0.turns + 1
      && (NoCategory(rec0.category) ==> r.state.category == Some(Engine.FlowRegistry.Classify(req.message)))
      && (!NoCategory(rec0.category) ==> r.state.category == rec0.category)
      && r.state.collected == FieldExtractor.Merged(rec0.collected, req)
      && r.state.stepsAttempted == rec0.stepsAttempted
      && r.logged[0] == Message(sid, "user", req.message, [])
  {
  }

  /**
   * When a required field of the session's flow is missing, the turn asks
   * the question for the first one, saves, opens no ticket, and neither
   * retrieval nor the model has any say in it.
   */
  lemma GateAsksFirstMissing(sid: string, rec0: Session.SessionRecord, req: ChatRequest, registry: Engine.FlowRegistry,
                             settings: Config.Settings,
                             retrieve: (string, Dict<Value>) -> (seq<Citation>, real),
                             complete: (string, Dict<Value>, seq<Citation>) -> Completion)
    requires Gate(registry, Prepared(rec0, req)).Some?
    ensures var rec := Prepared(rec0, req);
      var flow := registry.Get(rec.category.value);
      var field := Engine.NextMissingField(flow, rec.collected);
      var r := Step(sid, rec0, req, registry, settings, retrieve, complete);
      && field.Some? && field.value in flow.requiredFields
      && r.outcome == Replied(Answer(AnswerResponse(Engine.QuestionFor(flow, field.value), [],
                                                    Some(Engine.QuestionFor(flow, field.value)), rec.collected)))
      && r.saved && r.tickets == []
      && forall retrieve', complete' ::
           Step(sid, rec0, req, registry, settings, retrieve', complete') == r
  {
  }

  /**
   * With every required field filled, reaching the turn limit opens a ticket
   * without consulting the model, unless the ticket cannot be built: then
   * the turn fails with 500 and saves nothing.
   */
  lemma TurnLimitEscalates(sid: string, rec0: Session.SessionRecord, req: ChatRequest, registry: Engine.FlowRegistry,
                           settings: Config.Settings,
                           retrieve: (string, Dict<Value>) -> (seq<Citation>, real),
                           complete: (string, Dict<Value>, seq<Citation>) -> Completion)
    requires Gate(registry, Prepared(rec0, req)).None?
    requires rec0.turns + 1 >= settings.maxTurnsBeforeEscalate
    ensures var r := Step(sid, rec0, req, registry, settings, retrieve, complete);
      && (!TicketBuilder.SummaryRefused(Prepared(rec0, req).collected) ==>
        && r.outcome.Replied? && r.outcome.response.TicketReply?
        && r.outcome.response.reply.ticket.escalationReason == Guardrails.TurnLimitReason(settings)
        && r.saved && |r.tickets| == 1)
      && (TicketBuilder.SummaryRefused(Prepared(rec0, req).collected) ==> r.outcome == InternalError && !r.saved)
      && forall complete' :: Step(sid, rec0, req, registry, settings, retrieve, complete') == r
  {
    assert Guardrails.TurnLimitReason(settings) != "";
  }

  /** Below the turn limit, a best retrieval score under the threshold opens a ticket for low confidence, if it can be built. */
  lemma LowConfidenceEscalates(sid: string, rec0: Session.SessionRecord, req: ChatRequest, registry: Engine.FlowRegistry,
                               settings: Config.Settings,
                               retrieve: (string, Dict<Value>) -> (seq<Citation>, real),
                               complete: (string, Dict<Value>, seq<Citation>) -> Completion)
    requires Gate(registry, Prepared(rec0, req)).None?
    requires rec0.turns + 1 < settings.maxTurnsBeforeEscalate
    requires retrieve(req.message, Prepared(rec0, req).collected).1 < settings.ragMinScore
    ensures var r := Step(sid, rec0, req, registry, settings, retrieve, complete);
      && (!TicketBuilder.SummaryRefused(Prepared(rec0, req).collected) ==>
        && r.outcome.Replied? && r.outcome.response.TicketReply?
        && r.outcome.response.reply.ticket.escalationReason == Guardrails.LowConfidenceReason
        && r.outcome.response.reply.ticket.citations == retrieve(req.message, Prepared(rec0, req).collected).0)
      && (TicketBuilder.SummaryRefused(Prepared(rec0, req).collected) ==> r.outcome == InternalError)
  {
  }

  /**
   * An answer that is not a question is the model's text, shown only when
   * no escalation was due and the text passed the guardrails; it carries
   * the retrieved citations and the session is saved.
   */
  lemma AnswerPassedGuardrails(sid: string, rec0: Session.SessionRecord, req: ChatRequest, registry: Engine.FlowRegistry,
                               settings: Config.Settings,
                               retrieve: (string, Dict<Value>) -> (seq<Citation>, real),
                               complete: (string, Dict<Value>, seq<Citation>) -> Completion)
    ensures var r := Step(sid, rec0, req, registry, settings, retrieve, complete);
      var rec := Prepared(rec0, req);
      var (cits, best) := retrieve(req.message, rec.collected);
      r.outcome.Replied? && r.outcome.response.Answer? && r.outcome.response.answer.nextQuestion.None? ==>
        && Gate(registry, rec).None?
        && rec.turns < settings.maxTurnsBeforeEscalate && best >= settings.ragMinScore
        && complete(req.message, rec.collected, cits) == Completed(r.outcome.response.answer.message)
        && Guardrails.CheckResponse(r.outcome.response.answer.message).ok
        && r.outcome.response.answer.citations == cits
        && r.saved && r.tickets == []
  {
    var rec := Prepared(rec0, req);
    if Gate(registry, rec).None? {
      var (cits, best) := retrieve(req.message, rec.collected);
      var (esc, reason) := Guardrails.ShouldEscalate(settings, rec.turns, best);
      var c := complete(req.message, rec.collected, cits);
      if esc {
        TicketOrErrorNoAnswer(sid, rec, req, TicketBuilder.EscalationTicket(rec, req, cits, reason));
      } else if c.Completed? && !Guardrails.CheckResponse(c.text).ok {
        TicketOrErrorNoAnswer(sid, rec, req, TicketBuilder.GuardrailTicket(rec, req, cits, Guardrails.CheckResponse(c.text).reason));
      }
    }
  }

  /** A ticket turn never replies with an answer. */
  lemma TicketOrErrorNoAnswer(sid: string, rec: Session.SessionRecord, req: ChatRequest, built: Option<Ticket>)
    ensures var r := TicketOrError(sid, rec, req, built);
      !(r.outcome.Replied? && r.outcome.response.Answer?)
  {
  }

  /** A generated answer the guardrails reject is replaced by a ticket that names the reason, if it can be built. */
  lemma GuardrailRedirects(sid: string, rec0: Session.SessionRecord, req: ChatRequest, registry: Engine.FlowRegistry,
                           settings: Config.Settings,
                           retrieve: (string, Dict<Value>) -> (seq<Citation>, real),
                           complete: (string, Dict<Value>, seq<Citation>) -> Completion)
    requires Gate(registry, Prepared(rec0, req)).None?
    requires var rec := Prepared(rec0, req);
      var (cits, best) := retrieve(req.message, rec.collected);
      && !Guardrails.ShouldEscalate(settings, rec.turns, best).0
      && complete(req.message, rec.collected, cits).Completed?
      && !Guardrails.CheckResponse(complete(req.message, rec.collected, cits).text).ok
    ensures var rec := Prepared(rec0, req);
      var (cits, best) := retrieve(req.message, rec.collected);
      var content := complete(req.message, rec.collected, cits).text;
      var r := Step(sid, rec0, req, registry, settings, retrieve, complete);
      && (!TicketBuilder.SummaryRefused(rec.collected) ==>
        && r.outcome.Replied? && r.outcome.response.TicketReply?
        && r.outcome.response.reply.ticket.escalationReason
             == "Guardrail blocked response: " + Guardrails.CheckResponse(content).reason.value
        && r.outcome.response.reply.ticket.user == TicketBuilder.BaseUser(req))
      && (TicketBuilder.SummaryRefused(rec.collected) ==> r.outcome == InternalError)
  {
  }

  /**
   * A failed turn answers 502 or 500 and writes nothing but the user's
   * message: the session is not saved, and every saved turn succeeded.
   */
  lemma FailureSavesNothing(sid: string, rec0: Session.SessionRecord, req: ChatRequest, registry: Engine.FlowRegistry,
                            settings: Config.Settings,
                            retrieve: (string, Dict<Value>) -> (seq<Citation>, real),
                            complete: (string, Dict<Value>, seq<Citation>) -> Completion)
    ensures var r := Step(sid, rec0, req, registry, settings, retrieve, complete);
      r.outcome.Failed? <==> !r.saved
    ensures var r := Step(sid, rec0, req, registry, settings, retrieve, complete);
      r.outcome.Failed? ==>
        && (r.outcome.status == 502 || r.outcome == InternalError)
        && r.tickets == [] && r.logged == [UserMessage(sid, req)]
  {
    var rec := Prepared(rec0, req);
    if Gate(registry, rec).None? {
      var (cits, best) := retrieve(req.message, rec.collected);
      var (esc, reason) := Guardrails.ShouldEscalate(settings, rec.turns, best);
      var c := complete(req.message, rec.collected, cits);
      if esc {
        TicketOrErrorClean(sid, rec, req, TicketBuilder.EscalationTicket(rec, req, cits, reason));
      } else if c.Completed? && !Guardrails.CheckResponse(c.text).ok {
        TicketOrErrorClean(sid, rec, req, TicketBuilder.GuardrailTicket(rec, req, cits, Guardrails.CheckResponse(c.text).reason));
      }
    }
  }

  /** A ticket turn fails only with 500, saving nothing; otherwise it saves. */
  lemma TicketOrErrorClean(sid: string, rec: Session.SessionRecord, req: ChatRequest, built: Option<Ticket>)
    ensures var r := TicketOrError(sid, rec, req, built);
      && (r.outcome.Failed? <==> !r.saved)
      && (r.outcome.Failed? ==> r.outcome == InternalError && r.tickets == [] && r.logged == [UserMessage(sid, req)])
  {
  }



  /**
   * Why a turn fails: 502 exactly when the model call raised an `LLMError`
   * inside the `try`; 500 exactly when the model call failed otherwise, or a
   * ticket was due and its summary was refused.
   */
  lemma FailureCauses(sid: string, rec0: Session.SessionRecord, req: ChatRequest, registry: Engine.FlowRegistry,
                      settings: Config.Settings,
                      retrieve: (string, Dict<Value>) -> (seq<Citation>, real),
                      complete: (string, Dict<Value>, seq<Citation>) -> Completion)
    ensures var rec := Prepared(rec0, req);
      var (cits, best) := retrieve(req.message, rec.collected);
      var esc := Guardrails.ShouldEscalate(settings, rec.turns, best).0;
      var c := complete(req.message, rec.collected, cits);
      var r := Step(sid, rec0, req, registry, settings, retrieve, complete);
      && (r.outcome.Failed? && r.outcome.status == 502 <==> Gate(registry, rec).None? && !esc && c.ProviderError?)
      && (r.outcome.Failed? && r.outcome.status == 502 ==> r.outcome.detail == c.detail)
      && (r.outcome == InternalError <==>
            Gate(registry, rec).None?
            && ((esc && TicketBuilder.SummaryRefused(rec.collected))
                || (!esc && c.Crashed?)
                || (!esc && c.Completed? && !Guardrails.CheckResponse(c.text).ok && TicketBuilder.SummaryRefused(rec.collected))))
  {
    var rec := Prepared(rec0, req);
    if Gate(registry, rec).None? {
      var (cits, best) := retrieve(req.message, rec.collected);
      RetrievedFailures(sid, rec, req, settings, cits, best, complete);
    }
  }

  /** `FailureCauses` once retrieval has run. */
  lemma RetrievedFailures(sid: string, rec: Session.SessionRecord, req: ChatRequest, settings: Config.Settings,
                          cits: seq<Citation>, best: real,
                          complete: (string, Dict<Value>, seq<Citation>) -> Completion)
    ensures var esc := Guardrails.ShouldEscalate(settings, rec.turns, best).0;
      var c := complete(req.message, rec.collected, cits);
      var r := Retrieved(sid, rec, req, settings, cits, best, complete);
      && (r.outcome.Failed? && r.outcome.status == 502 <==> !esc && c.ProviderError?)
      && (r.outcome.Failed? && r.outcome.status == 502 ==> r.outcome.detail == c.detail)
      && (r.outcome == InternalError <==>
            || (esc && TicketBuilder.SummaryRefused(rec.collected))
            || (!esc && c.Crashed?)
            || (!esc && c.Completed? && !Guardrails.CheckResponse(c.text).ok && TicketBuilder.SummaryRefused(rec.collected)))
  {
    var (esc, reason) := Guardrails.ShouldEscalate(settings, rec.turns, best);
    var c := complete(req.message, rec.collected, cits);
    if esc {
      TicketOrErrorFails(sid, rec, req, TicketBuilder.EscalationTicket(rec, req, cits, reason));
      TicketBuilder.TicketsShareFields(rec, req, cits, reason);
    } else if c.Completed? && !Guardrails.CheckResponse(c.text).ok {
      var gr := Guardrails.CheckResponse(c.text);
      TicketOrErrorFails(sid, rec, req, TicketBuilder.GuardrailTicket(rec, req, cits, gr.reason));
      TicketBuilder.TicketsShareFields(rec, req, cits, gr.reason);
    }
  }

  /** Opening a built ticket succeeds; a ticket that could not be built fails with 500. */
  lemma TicketOrErrorFails(sid: string, rec: Session.SessionRecord, req: ChatRequest, built: Option<Ticket>)
    ensures TicketOrError(sid, rec, req, built).outcome == InternalError <==> built.None?
    ensures !TicketOrError(sid, rec, req, built).outcome.Failed? <==> built.Some?
  {
  }

  /** Every turn's ticket reply is the ticket it stored and logged (`TicketStored`). */
  lemma TicketReplyStored(sid: string, rec0: Session.SessionRecord, req: ChatRequest, registry: Engine.FlowRegistry,
                          settings: Config.Settings,
                          retrieve: (string, Dict<Value>) -> (seq<Citation>, real),
                          complete: (string, Dict<Value>, seq<Citation>) -> Completion)
    ensures var r := Step(sid, rec0, req, registry, settings, retrieve, complete);
      TicketStored(sid, req, r)
  {
    var rec := Prepared(rec0, req);
    if Gate(registry, rec).None? {
      var (cits, best) := retrieve(req.message, rec.collected);
      var (esc, reason) := Guardrails.ShouldEscalate(settings, rec.turns, best);
      var c := complete(req.message, rec.collected, cits);
      if esc {
        TicketOrErrorStored(sid, rec, req, TicketBuilder.EscalationTicket(rec, req, cits, reason));
      } else if c.Completed? && !Guardrails.CheckResponse(c.text).ok {
        TicketOrErrorStored(sid, rec, req, TicketBuilder.GuardrailTicket(rec, req, cits, Guardrails.CheckResponse(c.text).reason));
      }
    }
  }

  /**
   * A ticket reply is exactly what was stored: the ticket row holds the
   * request's org and user, the session and the rendering, the rendering is
   * also the assistant's logged reply, and the session is saved; no ticket
   * is stored without one.
   */
  predicate TicketStored(sid: string, req: ChatRequest, r: TurnResult) {
    && (r.outcome.Replied? && r.outcome.response.TicketReply? ==>
        var reply := r.outcome.response.reply;
        && reply.rendered == TicketBuilder.Rendered(reply.ticket)
        && r.tickets == [TicketRow(req.orgId, req.userId, sid, reply.ticket, reply.rendered)]
        && r.logged == [UserMessage(sid, req), Message(sid, "assistant", reply.rendered, [])]
        && r.saved)
    && (r.tickets != [] ==> r.outcome.Replied? && r.outcome.response.TicketReply?)
  }

  lemma TicketOrErrorStored(sid: string, rec: Session.SessionRecord, req: ChatRequest, built: Option<Ticket>)
    ensures TicketStored(sid, req, TicketOrError(sid, rec, req, built))
  {
  }

  /**
   * A saved turn is what the next turn on the same session starts from: it
   * counts on from there and keeps the category.
   */
  lemma NextTurnContinues(rows: map<string, Session.SessionRecord>, req: ChatRequest, freshId: string,
                          registry: Engine.FlowRegistry, settings: Config.Settings,
                          retrieve: (string, Dict<Value>) -> (seq<Citation>, real),
                          complete: (string, Dict<Value>, seq<Citation>) -> Completion,
                          req2: ChatRequest, freshId2: string)
    requires var (sid, rec0, rows1) := Opened(rows, req, freshId);
      && sid != "" && req2.sessionId == Some(sid)
      && Step(sid, rec0, req, registry, settings, retrieve, complete).saved
    ensures var (sid, rec0, rows1) := Opened(rows, req, freshId);
      var r := Step(sid, rec0, req, registry, settings, retrieve, complete);
      var (sid2, rec2, rows2) := Opened(Session.Upsert(rows1, sid, r.state), req2, freshId2);
      var r2 := Step(sid2, rec2, req2, registry, settings, retrieve, complete);
      && sid2 == sid && rec2 == r.state
      && r2.state.turns == rec0.turns + 2
      && r2.state.category == r.state.category
  {
    var (sid, rec0, rows1) := Opened(rows, req, freshId);
    var r := Step(sid, rec0, req, registry, settings, retrieve, complete);
    Session.LoadAfterSave(rows1, sid, r.state);
  }
}

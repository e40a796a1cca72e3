/** The request, response and ticket records of the chat service. */
module Schemas {
  import opened Options
  import opened Dicts
  import Text

  /** A scalar JSON value: a context field sent by the client or a collected slot. */
  datatype Value = Str(s: string) | Int(i: int) | Bool(b: bool) | Null

  /** Python's `str(v)`. */
  function ValueText(v: Value): string {
    match v
    case Str(s) => s
    case Int(i) => Text.IntToString(i)
    case Bool(b) => if b then "True" else "False"
    case Null => "None"
  }

  /** Python's truthiness `bool(v)`. */
  predicate Truthy(v: Value) {
    match v
    case Str(s) => s != ""
    case Int(i) => i != 0
    case Bool(b) => b
    case Null => false
  }

  /** `bool(v)` implies `str(v)` is not empty. */
  lemma TruthyTextNonEmpty(v: Value)
    requires Truthy(v)
    ensures ValueText(v) != ""
  {
  }

  /** The three impact/urgency levels a ticket may carry. */
  datatype Level = Low | Medium | High {
    function Name(): string {
      match this
      case Low => "low"
      case Medium => "medium"
      case High => "high"
    }
  }

  /** The level names are the three the ticket schema allows, one per level. */
  lemma LevelNames(l: Level)
    ensures l.Name() in {"low", "medium", "high"}
    ensures l.Name() == "medium" <==> l == Medium
  {
  }

  datatype ChatRequest = ChatRequest(
    message: string,
    sessionId: Option<string>,
    orgId: string,
    userId: string,
    context: Dict<Value>)

  /** A request that sets only its message: every other field at its default. */
  function DefaultRequest(message: string): ChatRequest {
    ChatRequest(message, None, "demo-org", "demo-user", [])
  }

  /** A knowledge-base excerpt: where it comes from, its heading and the text shown. */
  datatype Citation = Citation(sourceId: string, title: string, snippet: string)

  datatype AnswerResponse = AnswerResponse(
    message: string,
    citations: seq<Citation>,
    nextQuestion: Option<string>,
    collected: Dict<Value>)

  datatype Ticket = Ticket(
    summary: string,
    category: string,
    impact: Level,
    urgency: Level,
    user: Dict<Value>,
    device: Dict<Value>,
    diagnostics: Dict<Value>,
    stepsAttempted: seq<string>,
    errorText: Option<string>,
    escalationReason: string,
    citations: seq<Citation>)

  /** A ticket that sets only its three required fields: every other field at its default. */
  function DefaultTicket(summary: string, category: string, escalationReason: string): Ticket {
    Ticket(summary, category, Medium, Medium, [], [], [], [], None, escalationReason, [])
  }

  /** A ticket's optional fields default to medium impact and urgency, empty sections, no error text and no citations. */
  lemma TicketDefaults(summary: string, category: string, escalationReason: string)
    ensures var t := DefaultTicket(summary, category, escalationReason);
      && t.summary == summary && t.category == category && t.escalationReason == escalationReason
      && t.impact.Name() == "medium" && t.urgency.Name() == "medium"
      && t.user == [] && t.device == [] && t.diagnostics == []
      && t.stepsAttempted == [] && t.errorText == None && t.citations == []
  {
  }

  datatype TicketResponse = TicketResponse(ticket: Ticket, rendered: string)

  /** What one chat turn answers: an answer (or a question) or a ticket, never both. */
  datatype ChatResponse = Answer(answer: AnswerResponse) | TicketReply(reply: TicketResponse) {
    /** The `type` discriminator sent to the client. */
    function Type(): string {
      match this
      case Answer(_) => "answer"
      case TicketReply(_) => "ticket"
    }
  }

  /** The discriminator tells the two kinds of response apart. */
  lemma ResponseType(r: ChatResponse)
    ensures r.Type() in {"answer", "ticket"}
    ensures r.Type() == "answer" <==> r.Answer?
  {
  }
}

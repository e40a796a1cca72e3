/**
 * Escalation tickets: how the chat turn fills a ticket from the session and
 * the request, and the fixed-order plain-text rendering stored with it.
 */
module TicketBuilder {
  import opened Options
  import opened Dicts
  import opened Schemas
  import Text
  import Session

  /** One `  - key: value` line of the user, device or diagnostics section. */
  function EntryLine(e: (string, Value)): string {
    "  - " + e.0 + ": " + ValueText(e.1)
  }

  function EntryLines(d: Dict<Value>): (r: seq<string>)
    ensures |r| == |d|
  {
    seq(|d|, i requires 0 <= i < |d| => EntryLine(d[i]))
  }

  function StepLines(steps: seq<string>): (r: seq<string>)
    ensures |r| == |steps|
  {
    seq(|steps|, i requires 0 <= i < |steps| => "  - " + steps[i])
  }

  /** One `  - source :: title` line of the sources section. */
  function SourceLine(c: Citation): string {
    "  - " + c.sourceId + " :: " + c.title
  }

  function SourceLines(cits: seq<Citation>): (r: seq<string>)
    ensures |r| == |cits|
  {
    seq(|cits|, i requires 0 <= i < |cits| => SourceLine(cits[i]))
  }

  /** `if t.error_text:` — present and not empty. */
  predicate HasError(t: Ticket) {
    t.errorText.Some? && t.errorText.value != ""
  }

  function ErrorBlock(t: Ticket): seq<string> {
    if HasError(t) then ["", "Error:", t.errorText.value] else []
  }

  function StepsBlock(t: Ticket): seq<string> {
    if t.stepsAttempted != [] then ["", "Steps attempted:"] + StepLines(t.stepsAttempted) else []
  }

  function SourcesBlock(t: Ticket): seq<string> {
    if t.citations != [] then ["", "Sources:"] + SourceLines(t.citations) else []
  }

  /** The three header lines, a blank line and the user heading. */
  function Header(t: Ticket): seq<string> {
    ["Summary: " + t.summary,
     "Category: " + t.category,
     "Impact/Urgency: " + t.impact.Name() + "/" + t.urgency.Name(),
     "",
     "User:"]
  }

  /** The lines up to the end of the user section. */
  function UserPart(t: Ticket): (r: seq<string>)
    ensures |r| == 5 + |t.user|
  {
    Header(t) + EntryLines(t.user)
  }

  /** The lines up to the end of the device section. */
  function DevicePart(t: Ticket): (r: seq<string>)
    ensures |r| == 6 + |t.user| + |t.device|
  {
    UserPart(t) + ["Device:"] + EntryLines(t.device)
  }

  /** The lines up to the end of the diagnostics section. */
  function DiagnosticsPart(t: Ticket): (r: seq<string>)
    ensures |r| == 8 + |t.user| + |t.device| + |t.diagnostics|
  {
    DevicePart(t) + ["", "Diagnostics:"] + EntryLines(t.diagnostics)
  }

  /** Every line before the escalation reason. */
  function BodyLines(t: Ticket): seq<string> {
    DiagnosticsPart(t) + ErrorBlock(t) + StepsBlock(t) + [""]
  }

  function ReasonLine(t: Ticket): string {
    "Escalation reason: " + t.escalationReason
  }

  /** The lines of a rendered ticket, in section order. */
  function TicketLines(t: Ticket): seq<string> {
    BodyLines(t) + [ReasonLine(t)] + SourcesBlock(t)
  }

  /** The rendered ticket: the lines joined by newlines, stripped, with one final newline. */
  function Rendered(t: Ticket): string {
    Text.Strip(Text.Join("\n", TicketLines(t))) + "\n"
  }

  /** Appends one line per entry of `d`. */
  method AppendEntries(lines: seq<string>, d: Dict<Value>) returns (out: seq<string>)
    ensures out == lines + EntryLines(d)
  {
    out := lines;
    for i := 0 to |d|
      invariant out == lines + EntryLines(d)[..i]
    {
      out := out + [EntryLine(d[i])];
    }
  }

  /** Appends one line per step attempted. */
  method AppendSteps(lines: seq<string>, steps: seq<string>) returns (out: seq<string>)
    ensures out == lines + StepLines(steps)
  {
    out := lines;
    for i := 0 to |steps|
      invariant out == lines + StepLines(steps)[..i]
    {
      out := out + ["  - " + steps[i]];
    }
  }

  /** Appends one line per citation. */
  method AppendSources(lines: seq<string>, cits: seq<Citation>) returns (out: seq<string>)
    ensures out == lines + SourceLines(cits)
  {
    out := lines;
    for i := 0 to |cits|
      invariant out == lines + SourceLines(cits)[..i]
    {
      out := out + [SourceLine(cits[i])];
    }
  }

  /** `_render_ticket`: builds the line list section by section, then joins it. */
  method RenderTicket(t: Ticket) returns (r: string)
    ensures r == Rendered(t)
  {
    var lines := ["Summary: " + t.summary,
                  "Category: " + t.category,
                  "Impact/Urgency: " + t.impact.Name() + "/" + t.urgency.Name(),
                  "",
                  "User:"];
    lines := AppendEntries(lines, t.user);
    lines := lines + ["Device:"];
    lines := AppendEntries(lines, t.device);
    lines := lines + ["", "Diagnostics:"];
    lines := AppendEntries(lines, t.diagnostics);
    assert lines == DiagnosticsPart(t);
    lines := AppendOptionalBlocks(lines, t);
    lines := lines + ["", "Escalation reason: " + t.escalationReason];
    assert lines == BodyLines(t) + [ReasonLine(t)];
    if t.citations != [] {
      lines := lines + ["", "Sources:"];
      lines := AppendSources(lines, t.citations);
      assert lines == BodyLines(t) + [ReasonLine(t)] + SourcesBlock(t);
    } else {
      assert lines == lines + SourcesBlock(t);
    }
    r := Text.Strip(Text.Join("\n", lines)) + "\n";
  }

  /** The error block when there is an error text, then the steps block when steps were attempted. */
  method AppendOptionalBlocks(lines: seq<string>, t: Ticket) returns (out: seq<string>)
    ensures out + [""] == lines + ErrorBlock(t) + StepsBlock(t) + [""]
  {
    out := lines;
    if t.errorText.Some? && t.errorText.value != "" {
      out := out + ["", "Error:", t.errorText.value];
    } else {
      assert out == out + ErrorBlock(t);
    }
    var mid := out;
    if t.stepsAttempted != [] {
      out := out + ["", "Steps attempted:"];
      out := AppendSteps(out, t.stepsAttempted);
      assert out == mid + StepsBlock(t);
    } else {
      assert out == out + StepsBlock(t);
    }
  }

  /** The user section follows the header, one line per user field. */
  lemma UserLayout(t: Ticket)
    ensures var U := UserPart(t);
      && U[..5] == Header(t)
      && forall i :: 0 <= i < |t.user| ==> U[5 + i] == EntryLine(t.user[i])
  {
  }

  /** The device section follows the user section, under its heading. */
  lemma DeviceLayout(t: Ticket)
    ensures var D := DevicePart(t);
      var u := |t.user|;
      && D[..5 + u] == UserPart(t)
      && D[5 + u] == "Device:"
      && forall i :: 0 <= i < |t.device| ==> D[6 + u + i] == EntryLine(t.device[i])
  {
  }

  /** The diagnostics section follows the device section, after a blank line and its heading. */
  lemma DiagnosticsLayout(t: Ticket)
    ensures var G := DiagnosticsPart(t);
      var n := 6 + |t.user| + |t.device|;
      && G[..n] == DevicePart(t)
      && G[n] == "" && G[n + 1] == "Diagnostics:"
      && forall i :: 0 <= i < |t.diagnostics| ==> G[n + 2 + i] == EntryLine(t.diagnostics[i])
  {
  }

  /**
   * After the diagnostics: the error block only when there is an error text,
   * then the steps block only when steps were attempted, then a blank line.
   */
  lemma BodyLayout(t: Ticket)
    ensures var B := BodyLines(t);
      var n := |DiagnosticsPart(t)|;
      var e := if HasError(t) then 3 else 0;
      var s := if t.stepsAttempted != [] then 2 + |t.stepsAttempted| else 0;
      && |B| == n + e + s + 1
      && B[..n] == DiagnosticsPart(t)
      && (HasError(t) ==> B[n] == "" && B[n + 1] == "Error:" && B[n + 2] == t.errorText.value)
      && (t.stepsAttempted != [] ==>
            && B[n + e] == "" && B[n + e + 1] == "Steps attempted:"
            && forall i :: 0 <= i < |t.stepsAttempted| ==> B[n + e + 2 + i] == "  - " + t.stepsAttempted[i])
      && B[n + e + s] == ""
  {
    var G := DiagnosticsPart(t);
    var GE := G + ErrorBlock(t);
    assert GE[..|G|] == G;
    var GES := GE + StepsBlock(t);
    assert GES[..|GE|] == GE;
    assert GES[..|G|] == G;
  }

  /** The escalation reason always follows the body, then the sources block only when there are citations. */
  lemma TicketLinesLayout(t: Ticket)
    ensures var L := TicketLines(t);
      var b := |BodyLines(t)|;
      && |L| == b + 1 + (if t.citations != [] then 2 + |t.citations| else 0)
      && L[..b] == BodyLines(t)
      && L[b] == ReasonLine(t)
      && (t.citations != [] ==>
            && L[b + 1] == "" && L[b + 2] == "Sources:"
            && forall i :: 0 <= i < |t.citations| ==> L[b + 3 + i] == SourceLine(t.citations[i]))
  {
    var B := BodyLines(t);
    var BR := B + [ReasonLine(t)];
    assert BR[..|B|] == B;
    assert TicketLines(t)[..|BR|] == BR;
  }

  /**
   * The rendered text starts with everything up to and including the
   * "Escalation reason:" label exactly as laid out (the final strip never
   * reaches into it), and ends with exactly one newline after a visible character.
   */
  lemma RenderedShape(t: Ticket)
    ensures var r := Rendered(t);
      && Text.StartsWith(r, Text.Join("\n", BodyLines(t)) + "\nEscalation reason:")
      && Text.StartsWith(r, "Summary: " + t.summary)
      && |r| >= 2 && r[|r| - 1] == '\n' && !Text.IsSpace(r[|r| - 2])
  {
    var body := BodyLines(t);
    var p := Text.Join("\n", body) + "\nEscalation reason:";
    var first := "Summary: " + t.summary;
    JoinThroughReason(t);
    Text.JoinStartsWith("\n", body);
    assert Text.StartsWith(p, first);
    assert p[0] == 'S' by {
      assert p[..|first|] == first;
    }
    assert p[|p| - 1] == ':';
    StripKeepsHead(Text.Join("\n", TicketLines(t)), p, first);
  }

  /** Stripping a text that starts with `p`, which starts and ends with a visible character, keeps `p` and the shorter prefix `first`. */
  lemma StripKeepsHead(j: string, p: string, first: string)
    requires Text.StartsWith(j, p) && Text.StartsWith(p, first)
    requires p != [] && !Text.IsSpace(p[0]) && !Text.IsSpace(p[|p| - 1])
    ensures var k := Text.Strip(j);
      && Text.StartsWith(k, p) && Text.StartsWith(k, first) && k != [] && !Text.IsSpace(k[|k| - 1])
  {
    assert j[0] == p[0] by {
      assert j[..|p|] == p;
    }
    assert Text.LStrip(j) == j;
    assert j[|p| - 1] == p[|p| - 1] by {
      assert j[..|p|] == p;
    }
    Text.RStripKeeps(j, |p| - 1);
    Text.RStripPrefix(j);
    var k := Text.Strip(j);
    assert k == j[..|k|];
    assert k[..|p|] == p;
    assert k[..|first|] == first;
  }

  /** The joined lines start with the joined body, a newline and the reason line. */
  lemma JoinThroughReason(t: Ticket)
    ensures Text.StartsWith(Text.Join("\n", TicketLines(t)),
                            Text.Join("\n", BodyLines(t)) + "\nEscalation reason:")
  {
    TicketLinesSplit(t);
    JoinKeepsHead(BodyLines(t), "Escalation reason:", t.escalationReason, SourcesBlock(t));
  }

  /** The ticket's lines as body, reason line and sources, with the reason line's label apart. */
  lemma TicketLinesSplit(t: Ticket)
    ensures BodyLines(t) != []
    ensures TicketLines(t) == BodyLines(t) + ["Escalation reason:" + " " + t.escalationReason] + SourcesBlock(t)
  {
    assert ReasonLine(t) == "Escalation reason:" + " " + t.escalationReason;
  }

  /** Joining lines `body`, then a line starting with `tag`, then more lines, starts with the joined body, a newline and `tag`. */
  lemma JoinKeepsHead(body: seq<string>, tag: string, value: string, rest: seq<string>)
    requires body != []
    ensures Text.StartsWith(Text.Join("\n", body + [tag + " " + value] + rest), Text.Join("\n", body) + "\n" + tag)
  {
    var line := tag + " " + value;
    var head := body + [line];
    Text.JoinSplit("\n", body, [line]);
    var j := Text.Join("\n", head);
    var p := Text.Join("\n", body) + "\n" + tag;
    assert j == Text.Join("\n", body) + "\n" + line;
    assert j[..|p|] == p;
    if rest != [] {
      Text.JoinSplit("\n", head, rest);
      assert (j + "\n" + Text.Join("\n", rest))[..|p|] == j[..|p|];
    } else {
      assert head + rest == head;
    }
  }

  /** A ticket with only its required fields renders its three headers, empty sections and the reason. */
  lemma DefaultTicketLines(summary: string, category: string, reason: string)
    ensures TicketLines(DefaultTicket(summary, category, reason)) ==
      ["Summary: " + summary, "Category: " + category, "Impact/Urgency: medium/medium",
       "", "User:", "Device:", "", "Diagnostics:", "", "Escalation reason: " + reason]
  {
    var t := DefaultTicket(summary, category, reason);
    assert "Impact/Urgency: " + t.impact.Name() + "/" + t.urgency.Name() == "Impact/Urgency: medium/medium";
    assert EntryLines([]) == [];
    assert UserPart(t) == Header(t);
    assert DevicePart(t) == Header(t) + ["Device:"];
    assert DiagnosticsPart(t) == Header(t) + ["Device:", "", "Diagnostics:"];
    assert BodyLines(t) == Header(t) + ["Device:", "", "Diagnostics:", ""];
  }

  /**
   * The ticket summary, `collected.get("summary") or message.strip()[:120]`:
   * the collected "summary" when it is truthy, otherwise the stripped message
   * cut to 120 characters. `Ticket.summary` is declared a string, so a truthy
   * summary of any other type is refused when the ticket is built (`None`).
   */
  function SummaryOf(collected: Dict<Value>, message: string): (r: Option<string>)
    ensures r.None? <==> SummaryRefused(collected)
    ensures Get(collected, "summary").Some? && Get(collected, "summary").value.Str? && Truthy(Get(collected, "summary").value) ==>
      r == Some(Get(collected, "summary").value.s) && r.value != ""
    ensures !(Get(collected, "summary").Some? && Truthy(Get(collected, "summary").value)) ==>
      r.Some? && |r.value| <= 120 && Text.StartsWith(Text.Strip(message), r.value)
      && (|Text.Strip(message)| <= 120 ==> r.value == Text.Strip(message))
  {
    match Get(collected, "summary")
    case Some(v) =>
      if !Truthy(v) then Some(Text.Take(Text.Strip(message), 120))
      else if v.Str? then Some(v.s)
      else None
    case None => Some(Text.Take(Text.Strip(message), 120))
  }

  /** The collected "summary" is truthy but not a string: pydantic's `summary: str` rejects it. */
  predicate SummaryRefused(collected: Dict<Value>) {
    Get(collected, "summary").Some? && Truthy(Get(collected, "summary").value) && !Get(collected, "summary").value.Str?
  }

  /** A summary of 5 from the request context makes the ticket unbuildable; a summary "5" is kept. */
  lemma SummaryTypeMatters(message: string)
    ensures SummaryOf([("summary", Int(5))], message).None?
    ensures SummaryOf([("summary", Str("5"))], message) == Some("5")
  {
    IndexOfIs([("summary", Int(5))], "summary", 0);
    IndexOfIs([("summary", Str("5"))], "summary", 0);
  }

  /** `state.category or "unknown"`. */
  function CategoryOf(category: Option<string>): (r: string)
    ensures r != ""
    ensures category.Some? && category.value != "" ==> r == category.value
    ensures !(category.Some? && category.value != "") ==> r == "unknown"
  {
    if category.Some? && category.value != "" then category.value else "unknown"
  }

  /** `str(collected.get("error_message") or "") or None`. */
  function ErrorTextOf(collected: Dict<Value>): (r: Option<string>)
    ensures r.Some? <==> Get(collected, "error_message").Some? && Truthy(Get(collected, "error_message").value)
    ensures r.Some? ==> r.value == ValueText(Get(collected, "error_message").value) && r.value != ""
  {
    match Get(collected, "error_message")
    case Some(v) =>
      if Truthy(v) then
        TruthyTextNonEmpty(v);
        Some(ValueText(v))
      else None
    case None => None
  }

  /** `{k: v for k, v in ctx.items() if k.startswith(prefix)}`. */
  function WithPrefix(ctx: Dict<Value>, prefix: string): (r: Dict<Value>)
    ensures |r| <= |ctx|
    ensures forall i :: 0 <= i < |r| ==> Text.StartsWith(r[i].0, prefix)
  {
    if ctx == [] then []
    else
      var last := ctx[|ctx| - 1];
      WithPrefix(ctx[..|ctx| - 1], prefix) + (if Text.StartsWith(last.0, prefix) then [last] else [])
  }

  /** Filtering keeps exactly the keys with the prefix, with their values. */
  lemma {:induction false} WithPrefixLast(ctx: Dict<Value>, prefix: string, k: string)
    ensures LastFor(WithPrefix(ctx, prefix), k) == if Text.StartsWith(k, prefix) then LastFor(ctx, k) else None
  {
    if ctx != [] {
      var init := ctx[..|ctx| - 1];
      var last := ctx[|ctx| - 1];
      WithPrefixLast(init, prefix, k);
      var w := WithPrefix(init, prefix);
      if Text.StartsWith(last.0, prefix) {
        assert (w + [last])[..|w|] == w;
      } else {
        assert WithPrefix(ctx, prefix) == w;
      }
    }
  }

  function BaseUser(req: ChatRequest): Dict<Value> {
    [("org_id", Str(req.orgId)), ("user_id", Str(req.userId))]
  }

  /** The escalation ticket's user section: the org and user ids, then every `user_` context field. */
  function EscalationUser(req: ChatRequest): Dict<Value> {
    PutAll(BaseUser(req), WithPrefix(req.context, "user_"))
  }

  /**
   * "org_id" and "user_id" come first; a `user_` context field is copied,
   * and a context field named "user_id" replaces the request's user id in place.
   */
  lemma EscalationUserGet(req: ChatRequest, k: string)
    requires KeysDistinct(req.context)
    ensures |EscalationUser(req)| >= 2 && Keys(EscalationUser(req))[..2] == ["org_id", "user_id"]
    ensures KeysDistinct(EscalationUser(req))
    ensures Get(EscalationUser(req), k) ==
      if Text.StartsWith(k, "user_") && HasKey(req.context, k) then Get(req.context, k)
      else if k == "org_id" then Some(Str(req.orgId))
      else if k == "user_id" then Some(Str(req.userId))
      else None
  {
    var base := BaseUser(req);
    PutAllKeys(base, WithPrefix(req.context, "user_"));
    PutAllGet(base, WithPrefix(req.context, "user_"), k);
    WithPrefixLast(req.context, "user_", k);
    LastForDistinct(req.context, k);
    assert Keys(base) == ["org_id", "user_id"];
    IndexOfIs(base, "user_id", 1);
  }

  /** The escalation reason, or "Escalated" when the policy gave none. */
  function EscalationReasonOf(reason: Option<string>): (r: string)
    ensures r != ""
    ensures reason.Some? && reason.value != "" ==> r == reason.value
    ensures !(reason.Some? && reason.value != "") ==> r == "Escalated"
  {
    if reason.Some? && reason.value != "" then reason.value else "Escalated"
  }

  /** Python's `f"{x}"` for an optional string. */
  function OptionText(x: Option<string>): string {
    match x
    case Some(s) => s
    case None => "None"
  }

  /** The ticket opened when the escalation policy fires, or `None` when `Ticket(...)` refuses the summary. */
  function EscalationTicket(rec: Session.SessionRecord, req: ChatRequest, cits: seq<Citation>, reason: Option<string>): Option<Ticket> {
    match SummaryOf(rec.collected, req.message)
    case None => None
    case Some(summary) =>
      Some(Ticket(
        summary,
        CategoryOf(rec.category),
        Medium, Medium,
        EscalationUser(req),
        WithPrefix(req.context, "device_"),
        rec.collected,
        rec.stepsAttempted,
        ErrorTextOf(rec.collected),
        EscalationReasonOf(reason),
        cits))
  }

  /** The ticket opened when the generated answer fails the guardrail check, or `None` when `Ticket(...)` refuses the summary. */
  function GuardrailTicket(rec: Session.SessionRecord, req: ChatRequest, cits: seq<Citation>, reason: Option<string>): Option<Ticket> {
    match SummaryOf(rec.collected, req.message)
    case None => None
    case Some(summary) =>
      Some(Ticket(
        summary,
        CategoryOf(rec.category),
        Medium, Medium,
        BaseUser(req),
        WithPrefix(req.context, "device_"),
        rec.collected,
        rec.stepsAttempted,
        ErrorTextOf(rec.collected),
        "Guardrail blocked response: " + OptionText(reason),
        cits))
  }

  /**
   * Both tickets carry medium impact and urgency, the session's collected
   * fields as diagnostics, its steps, the retrieved citations and the
   * `device_` context fields; an error section is rendered exactly when the
   * collected "error_message" is truthy.
   */
  lemma TicketsShareFields(rec: Session.SessionRecord, req: ChatRequest, cits: seq<Citation>, reason: Option<string>)
    ensures var e := EscalationTicket(rec, req, cits, reason);
      var g := GuardrailTicket(rec, req, cits, reason);
      && (e.None? <==> SummaryRefused(rec.collected)) && (g.None? <==> SummaryRefused(rec.collected))
      && (e.Some? ==>
        var e := e.value;
        var g := g.value;
        && e.impact == g.impact == Medium && e.urgency == g.urgency == Medium
        && e.diagnostics == g.diagnostics == rec.collected
        && e.stepsAttempted == g.stepsAttempted == rec.stepsAttempted
        && e.citations == g.citations == cits
        && e.device == g.device == WithPrefix(req.context, "device_")
        && Some(e.summary) == SummaryOf(rec.collected, req.message) && e.summary == g.summary
        && e.category == g.category && e.category != ""
        && (HasError(e) <==> Get(rec.collected, "error_message").Some? && Truthy(Get(rec.collected, "error_message").value))
        && e.escalationReason != ""
        && g.user == BaseUser(req))
  {
  }
}

/**
 * The escalation policy (turn limit first, then retrieval confidence) and the
 * guardrail check a generated answer must pass before it is shown.
 */
module Guardrails {
  import opened Options
  import Text
  import Config

  /** Phrases no answer may contain, in the order they are tested. */
  const BannedPhrases: seq<string> :=
    ["disable antivirus", "turn off mfa", "bypass", "crack", "steal", "phishing", "password please"]

  /** The longest answer, in characters, that passes. */
  const MaxResponseLength := 5000

  datatype GuardrailResult = GuardrailResult(ok: bool, reason: Option<string>)

  /** The first of `phrases`, in order, that occurs in `t`. */
  function FirstBanned(t: string, phrases: seq<string>): (r: Option<string>)
    ensures r.Some? ==> r.value in phrases && Text.Contains(t, r.value)
    ensures r.None? <==> forall p :: p in phrases ==> !Text.Contains(t, p)
  {
    if phrases == [] then None
    else if Text.Contains(t, phrases[0]) then Some(phrases[0])
    else FirstBanned(t, phrases[1..])
  }

  /** The phrase reported is the earliest one in list order that occurs. */
  lemma {:induction false} FirstBannedIsEarliest(t: string, phrases: seq<string>, i: nat)
    requires i < |phrases| && Text.Contains(t, phrases[i])
    requires forall j :: 0 <= j < i ==> !Text.Contains(t, phrases[j])
    ensures FirstBanned(t, phrases) == Some(phrases[i])
  {
    if i > 0 {
      FirstBannedIsEarliest(t, phrases[1..], i - 1);
    }
  }

  /**
   * Checks a generated answer: the first banned phrase inside the lower-cased
   * text rejects it, naming the phrase; otherwise an answer longer than the
   * limit is rejected; otherwise it passes. A rejection always carries a reason.
   */
  function CheckResponse(text: string): (r: GuardrailResult)
    ensures r.ok <==> r.reason == None
    ensures r.ok <==>
      (forall p :: p in BannedPhrases ==> !Text.Contains(Text.Lower(text), p))
      && |text| <= MaxResponseLength
  {
    match FirstBanned(Text.Lower(text), BannedPhrases)
    case Some(p) => GuardrailResult(false, Some("Banned phrase detected: " + p))
    case None =>
      if |text| > MaxResponseLength then GuardrailResult(false, Some("Response too long"))
      else GuardrailResult(true, None)
  }

  /** The banned-phrase test comes before the length test and names the earliest phrase present. */
  lemma BannedPhraseReported(text: string, i: nat)
    requires i < |BannedPhrases| && Text.Contains(Text.Lower(text), BannedPhrases[i])
    requires forall j :: 0 <= j < i ==> !Text.Contains(Text.Lower(text), BannedPhrases[j])
    ensures CheckResponse(text) == GuardrailResult(false, Some("Banned phrase detected: " + BannedPhrases[i]))
  {
    FirstBannedIsEarliest(Text.Lower(text), BannedPhrases, i);
  }

  /** Without a banned phrase, exactly the texts longer than the limit fail, and they fail on length. */
  lemma LengthLimit(text: string)
    requires forall p :: p in BannedPhrases ==> !Text.Contains(Text.Lower(text), p)
    ensures |text| > MaxResponseLength ==> CheckResponse(text) == GuardrailResult(false, Some("Response too long"))
    ensures |text| <= MaxResponseLength ==> CheckResponse(text) == GuardrailResult(true, None)
  {
  }

  /** No banned phrase starts with 'a', so a text of only 'a's contains none. */
  lemma NoPhraseInAs(t: string)
    requires forall i :: 0 <= i < |t| ==> t[i] == 'a'
    ensures forall p :: p in BannedPhrases ==> !Text.Contains(t, p)
  {
    forall p | p in BannedPhrases ensures !Text.Contains(t, p) {
      NotAt(t, p);
    }
  }

  /** A phrase whose first character never appears in `t` does not occur in it. */
  lemma NotAt(t: string, p: string)
    requires p != []
    requires forall i :: 0 <= i < |t| ==> t[i] != p[0]
    ensures !Text.Contains(t, p)
  {
    forall i | 0 <= i <= |t| - |p| ensures !Text.OccursAt(t, p, i) {
      assert t[i..i + |p|][0] == t[i];
    }
  }

  /** A phrase whose first two characters never appear side by side in `t` does not occur in it. */
  lemma NotAtPair(t: string, p: string)
    requires |p| >= 2
    requires forall i :: 0 <= i < |t| - 1 ==> !(t[i] == p[0] && t[i + 1] == p[1])
    ensures !Text.Contains(t, p)
  {
    forall i | 0 <= i <= |t| - |p| ensures !Text.OccursAt(t, p, i) {
      assert t[i..i + |p|][0] == t[i];
      assert t[i..i + |p|][1] == t[i + 1];
    }
  }

  /** The design's first example: a banned phrase in upper case is still caught, and named. */
  lemma BannedPhraseExample()
    ensures CheckResponse("Try to BYPASS the proxy") == GuardrailResult(false, Some("Banned phrase detected: bypass"))
  {
    var text := "Try to BYPASS the proxy";
    assert Text.Lower(text) == "try to bypass the proxy";
    BypassReported(text);
  }

  lemma BypassReported(text: string)
    requires Text.Lower(text) == "try to bypass the proxy"
    ensures CheckResponse(text) == GuardrailResult(false, Some("Banned phrase detected: bypass"))
  {
    OnlyBypassIn(Text.Lower(text));
    BannedPhraseReported(text, 2);
    assert "Banned phrase detected: " + BannedPhrases[2] == "Banned phrase detected: bypass" by {
      assert BannedPhrases[2] == "bypass";
    }
  }

  lemma OnlyBypassIn(t: string)
    requires t == "try to bypass the proxy"
    ensures Text.Contains(t, BannedPhrases[2])
    ensures forall j :: 0 <= j < 2 ==> !Text.Contains(t, BannedPhrases[j])
  {
    assert Text.OccursAt(t, "bypass", 7);
    NotAtPair(t, "disable antivirus");
    NotAtPair(t, "turn off mfa");
  }

  /** 6000 harmless characters fail on length. */
  lemma TooLongExample()
    ensures CheckResponse(seq(6000, _ => 'a')) == GuardrailResult(false, Some("Response too long"))
  {
    var long: string := seq(6000, _ => 'a');
    assert Text.Lower(long) == long;
    NoPhraseInAs(long);
  }

  /** A short harmless instruction passes. */
  lemma PassingExample()
    ensures CheckResponse("Reboot your router.").ok
  {
    var fine := Text.Lower("Reboot your router.");
    assert fine == "reboot your router.";
    NothingBannedIn(fine);
  }

  lemma NothingBannedIn(t: string)
    requires t == "reboot your router."
    ensures forall p :: p in BannedPhrases ==> !Text.Contains(t, p)
  {
    NotAt(t, "disable antivirus");
    NotAtPair(t, "turn off mfa");
    NotAtPair(t, "bypass");
    NotAt(t, "crack");
    NotAt(t, "steal");
    NotAt(t, "phishing");
    NotAt(t, "password please");
  }

  /** The reason given when the turn limit is reached. */
  function TurnLimitReason(s: Config.Settings): string {
    "Exceeded max turns (" + Text.IntToString(s.maxTurnsBeforeEscalate) + ")"
  }

  const LowConfidenceReason := "Insufficient documentation coverage (low retrieval confidence)"

  /**
   * The escalation policy: the turn limit is tested first, then the best
   * retrieval score; a decision to escalate always carries its reason.
   */
  function ShouldEscalate(s: Config.Settings, turns: int, bestRagScore: real): (r: (bool, Option<string>))
    ensures r.0 <==> turns >= s.maxTurnsBeforeEscalate || bestRagScore < s.ragMinScore
    ensures r.0 <==> r.1.Some?
    ensures turns >= s.maxTurnsBeforeEscalate ==> r.1 == Some(TurnLimitReason(s))
    ensures turns < s.maxTurnsBeforeEscalate && bestRagScore < s.ragMinScore ==> r.1 == Some(LowConfidenceReason)
  {
    if turns >= s.maxTurnsBeforeEscalate then (true, Some(TurnLimitReason(s)))
    else if bestRagScore < s.ragMinScore then (true, Some(LowConfidenceReason))
    else (false, None)
  }

  /** The examples the design gives, with the shipped thresholds (6 turns, score 0.12). */
  lemma EscalationExamples()
    ensures ShouldEscalate(Config.Defaults, 6, 0.9) == (true, Some("Exceeded max turns (6)"))
    ensures ShouldEscalate(Config.Defaults, 1, 0.05) == (true, Some(LowConfidenceReason))
    ensures ShouldEscalate(Config.Defaults, 1, 0.5) == (false, None)
  {
    assert Text.DigitChar(6) == '6';
    assert Text.IntToString(6) == "6";
    assert TurnLimitReason(Config.Defaults) == "Exceeded max turns (6)";
  }
}

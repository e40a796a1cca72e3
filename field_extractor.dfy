/**
 * How a turn's message and request context become collected slots: the
 * `key: value` / `key = value` line parser, the heuristic OS and MFA guesser,
 * and the three-pass merge into the session's `collected` map.
 */
module FieldExtractor {
  import opened Options
  import opened Dicts
  import opened Schemas
  import Text
  import Session

  // ---------------------------------------------------------------------------
  // The key/value line parser
  // ---------------------------------------------------------------------------

  /** The first character of a key: the class `[a-zA-Z_]`. */
  predicate IsKeyStart(c: char) {
    ('a' <= c <= 'z') || ('A' <= c <= 'Z') || c == '_'
  }

  /** The length of the run of `[a-zA-Z0-9_]` characters that `s` starts with. */
  function WordRun(s: string): (n: nat)
    ensures n <= |s|
    ensures forall i :: 0 <= i < n ==> Text.IsAsciiWordChar(s[i])
    ensures n < |s| ==> !Text.IsAsciiWordChar(s[n])
  {
    if s != [] && Text.IsAsciiWordChar(s[0]) then 1 + WordRun(s[1..]) else 0
  }

  /** A key as stored: 2 to 41 characters of `[a-z0-9_]`, the first not a digit. */
  predicate KeyShaped(k: string) {
    && 2 <= |k| <= 41
    && (('a' <= k[0] <= 'z') || k[0] == '_')
    && forall i :: 0 <= i < |k| ==> Text.IsAsciiWordChar(k[i]) && !('A' <= k[i] <= 'Z')
  }

  /** A value as stored: no space at either end. */
  predicate Stripped(v: string) {
    v != [] ==> !Text.IsSpace(v[0]) && !Text.IsSpace(v[|v| - 1])
  }

  /**
   * One line against `^\s*([a-zA-Z_][a-zA-Z0-9_]{1,40})\s*[:=]\s*(.+?)\s*$`:
   * the key is the whole word run after the leading spaces (a shorter match
   * would be followed by a word character, which neither `\s` nor `[:=]`
   * accepts), and at least one character must follow the separator. The
   * pair returned is the lower-cased key and the stripped value.
   */
  function MatchKv(line: string): (r: Option<(string, string)>)
  {
    var t := Text.LStrip(line);
    if t == [] || !IsKeyStart(t[0]) then None
    else
      var n := WordRun(t);
      if n < 2 || n > 41 then None
      else
        var u := Text.LStrip(t[n..]);
        if |u| < 2 || (u[0] != ':' && u[0] != '=') then None
        else Some((Text.Lower(t[..n]), Text.Strip(u[1..])))
  }

  /** Every pair the parser returns has a key of the stored shape and a stripped value. */
  lemma MatchKvShaped(line: string)
    ensures MatchKv(line).Some? ==> KeyShaped(MatchKv(line).value.0) && Stripped(MatchKv(line).value.1)
  {
    if MatchKv(line).Some? {
      var t := Text.LStrip(line);
      var n := WordRun(t);
      var u := Text.LStrip(t[n..]);
      assert t != [] && IsKeyStart(t[0]) && 2 <= n <= 41 && |u| >= 2;
      var key := t[..n];
      assert MatchKv(line).value == (Text.Lower(key), Text.Strip(u[1..]));
      assert forall i :: 0 <= i < n ==> key[i] == t[i];
      LowerKeyShaped(key);
    }
  }

  /** A line the parser accepts contains a `:` or an `=`. */
  lemma MatchKvNeedsSeparator(line: string)
    ensures MatchKv(line).Some? ==> exists i :: 0 <= i < |line| && (line[i] == ':' || line[i] == '=')
  {
    if MatchKv(line).Some? {
      var t := Text.LStrip(line);
      var n := WordRun(t);
      var w := t[n..];
      var u := Text.LStrip(w);
      assert t != [] && IsKeyStart(t[0]) && 2 <= n <= 41 && |u| >= 2 && (u[0] == ':' || u[0] == '=');
      Text.LStripSuffix(line);
      Text.LStripSuffix(w);
      SeparatorInLine(line, t, w, u);
    }
  }

  /** A key matched by `[a-zA-Z_][a-zA-Z0-9_]{1,40}` is stored lower-cased. */
  lemma LowerKeyShaped(s: string)
    requires 2 <= |s| <= 41 && IsKeyStart(s[0])
    requires forall i :: 0 <= i < |s| ==> Text.IsAsciiWordChar(s[i])
    ensures KeyShaped(Text.Lower(s))
  {
  }

  /** The separator the parser found is a character of the line. */
  lemma SeparatorInLine(line: string, t: string, w: string, u: string)
    requires |t| <= |line| && t == line[|line| - |t|..]
    requires |w| <= |t| && w == t[|t| - |w|..]
    requires |u| <= |w| && u == w[|w| - |u|..]
    requires u != [] && (u[0] == ':' || u[0] == '=')
    ensures exists i :: 0 <= i < |line| && (line[i] == ':' || line[i] == '=')
  {
    var i := |line| - |u|;
    assert line[i] == u[0];
  }

  /** Stripping a space followed by a stripped value gives the value back. */
  lemma StripSpaceThen(v: string)
    requires Stripped(v)
    ensures Text.Strip(" " + v) == v
  {
    assert (" " + v)[1..] == v;
    assert Text.LStrip(" " + v) == Text.LStrip(v);
    Text.StripNoOp(v);
  }

  /**
   * The parser reads back what `key: value` and `key = value` write: a key of
   * the right shape (any case), optional spaces, `:` or `=`, a space and a
   * stripped value parse to the lower-cased key and the value itself.
   */
  lemma MatchKvRoundTrip(k: string, pad: string, sep: char, v: string)
    requires 2 <= |k| <= 41 && IsKeyStart(k[0])
    requires forall i :: 0 <= i < |k| ==> Text.IsAsciiWordChar(k[i])
    requires forall i :: 0 <= i < |pad| ==> Text.IsSpace(pad[i])
    requires sep == ':' || sep == '='
    requires Stripped(v)
    ensures MatchKv(k + pad + [sep] + " " + v) == Some((Text.Lower(k), v))
  {
    var line := k + pad + [sep] + " " + v;
    LineParts(k, pad, sep, v);
    SeparatorThenValue(sep, v);
    MatchKvIs(line, |k|);
  }

  /** How the line splits: the key run first, then the padding the parser strips before the separator. */
  lemma LineParts(k: string, pad: string, sep: char, v: string)
    requires 2 <= |k| <= 41 && IsKeyStart(k[0])
    requires forall i :: 0 <= i < |k| ==> Text.IsAsciiWordChar(k[i])
    requires forall i :: 0 <= i < |pad| ==> Text.IsSpace(pad[i])
    requires sep == ':' || sep == '='
    ensures var line := k + pad + [sep] + " " + v;
      && Text.LStrip(line) == line && WordRun(line) == |k| && line[..|k|] == k
      && Text.LStrip(line[|k|..]) == [sep] + " " + v
  {
    var tail := [sep] + " " + v;
    var rest := pad + tail;
    assert k + pad + [sep] + " " + v == k + rest;
    KeyThenRest(k, rest);
    LStripSpaces(pad, tail);
  }

  /** Leading spaces are all that `lstrip` removes. */
  lemma {:induction false} LStripSpaces(pad: string, s: string)
    requires forall i :: 0 <= i < |pad| ==> Text.IsSpace(pad[i])
    requires s != [] && !Text.IsSpace(s[0])
    ensures Text.LStrip(pad + s) == s
  {
    if pad != [] {
      assert (pad + s)[1..] == pad[1..] + s;
      LStripSpaces(pad[1..], s);
    }
  }

  /** What follows the key: the separator, a space and a stripped value. */
  lemma SeparatorThenValue(sep: char, v: string)
    requires sep == ':' || sep == '='
    requires Stripped(v)
    ensures var rest := [sep] + " " + v;
      Text.LStrip(rest) == rest && |rest| >= 2 && rest[0] == sep && Text.Strip(rest[1..]) == v
  {
    var rest := [sep] + " " + v;
    assert rest[1..] == " " + v;
    StripSpaceThen(v);
  }

  /** A key run followed by a non-word character: the line's word run is the key. */
  lemma KeyThenRest(k: string, rest: string)
    requires k != [] && IsKeyStart(k[0])
    requires forall i :: 0 <= i < |k| ==> Text.IsAsciiWordChar(k[i])
    requires rest != [] && !Text.IsAsciiWordChar(rest[0])
    ensures Text.LStrip(k + rest) == k + rest
    ensures WordRun(k + rest) == |k|
    ensures (k + rest)[..|k|] == k && (k + rest)[|k|..] == rest
  {
    WordRunOf(k, rest);
  }

  /** The parser's verdict on a line whose key run ends at `n` and whose separator follows it. */
  lemma MatchKvIs(line: string, n: nat)
    requires var t := Text.LStrip(line);
      && t != [] && IsKeyStart(t[0]) && WordRun(t) == n && 2 <= n <= 41
      && var u := Text.LStrip(t[n..]); |u| >= 2 && (u[0] == ':' || u[0] == '=')
    ensures var t := Text.LStrip(line); var u := Text.LStrip(t[n..]);
      MatchKv(line) == Some((Text.Lower(t[..n]), Text.Strip(u[1..])))
  {
  }

  /** A run of word characters followed by a non-word character is exactly the word run. */
  lemma {:induction false} WordRunOf(k: string, rest: string)
    requires forall i :: 0 <= i < |k| ==> Text.IsAsciiWordChar(k[i])
    requires rest != [] && !Text.IsAsciiWordChar(rest[0])
    ensures WordRun(k + rest) == |k|
  {
    if k != [] {
      assert (k + rest)[1..] == k[1..] + rest;
      WordRunOf(k[1..], rest);
    }
  }

  /** A line without `:` or `=` is ignored. */
  lemma NoSeparatorIgnored(line: string)
    requires forall i :: 0 <= i < |line| ==> line[i] != ':' && line[i] != '='
    ensures MatchKv(line) == None
  {
    MatchKvNeedsSeparator(line);
  }

  /** The first format the parser documents. */
  lemma ColonExample()
    ensures MatchKv("os: Windows 11") == Some(("os", "Windows 11"))
  {
    assert "os" + "" + [':'] + " " + "Windows 11" == "os: Windows 11";
    assert Text.Lower("os") == "os";
    MatchKvRoundTrip("os", "", ':', "Windows 11");
  }

  /** The second format the parser documents, with a space before the separator. */
  lemma EqualsExample()
    ensures MatchKv("error_message = 809") == Some(("error_message", "809"))
  {
    assert "error_message" + " " + ['='] + " " + "809" == "error_message = 809";
    assert Text.Lower("error_message") == "error_message";
    MatchKvRoundTrip("error_message", " ", '=', "809");
  }

  /** The parse of each line, in order. */
  function Parses(lines: seq<string>): (ms: seq<Option<(string, string)>>)
    ensures |ms| == |lines| && forall i :: 0 <= i < |lines| ==> ms[i] == MatchKv(lines[i])
  {
    seq(|lines|, i requires 0 <= i < |lines| => MatchKv(lines[i]))
  }

  /** `out[k] = v` for each parsed pair in turn: a later pair with the same key replaces the value in place. */
  function Collect(ms: seq<Option<(string, string)>>): Dict<string>
  {
    if ms == [] then []
    else
      var d := Collect(ms[..|ms| - 1]);
      match ms[|ms| - 1]
      case None => d
      case Some((k, v)) => Put(d, k, v)
  }

  /** The pairs parsed from the lines of a message. */
  function KvOf(lines: seq<string>): Dict<string> {
    Collect(Parses(lines))
  }

  /** `_extract_kv`: every line of the message through the parser, in order. */
  method ExtractKv(message: string) returns (out: Dict<string>)
    ensures out == KvOf(Text.SplitLines(message))
  {
    var lines := Text.SplitLines(message);
    ghost var ms := Parses(lines);
    out := [];
    var i := 0;
    while i < |lines|
      invariant 0 <= i <= |lines|
      invariant out == Collect(ms[..i])
    {
      assert ms[..i + 1][..i] == ms[..i];
      var m := MatchKv(lines[i]);
      assert m == ms[i];
      if m.Some? {
        out := Put(out, m.value.0, m.value.1);
      }
      i := i + 1;
    }
    assert ms[..|lines|] == ms;
  }

  /** Every pair parsed has a key of the stored shape and a stripped value. */
  predicate ParsesShaped(ms: seq<Option<(string, string)>>) {
    forall i :: 0 <= i < |ms| && ms[i].Some? ==> KeyShaped(ms[i].value.0) && Stripped(ms[i].value.1)
  }

  /** What `Collect` builds is a dict whose entries are all parsed pairs. */
  lemma {:induction false} CollectWellFormed(ms: seq<Option<(string, string)>>)
    requires ParsesShaped(ms)
    ensures KeysDistinct(Collect(ms))
    ensures forall i :: 0 <= i < |Collect(ms)| ==> KeyShaped(Collect(ms)[i].0) && Stripped(Collect(ms)[i].1)
  {
    if ms != [] {
      var init := ms[..|ms| - 1];
      assert ParsesShaped(init) by {
        forall i | 0 <= i < |init| ensures init[i] == ms[i] {}
      }
      CollectWellFormed(init);
      match ms[|ms| - 1]
      case None =>
      case Some((k, v)) =>
        var d := Collect(init);
        var e := Put(d, k, v);
        forall i | 0 <= i < |e| ensures KeyShaped(e[i].0) && Stripped(e[i].1) {
          assert Keys(e)[i] == e[i].0;
          if e[i].0 == k {
            GetAt(e, i);
          } else {
            if i < |d| {
              assert Keys(d)[i] == d[i].0;
              GetAt(e, i);
              GetAt(d, i);
            }
          }
        }
    }
  }

  /** The parsed map is a dict: every key once, every key shaped, every value stripped. */
  lemma KvOfWellFormed(lines: seq<string>)
    ensures KeysDistinct(KvOf(lines))
    ensures forall i :: 0 <= i < |KvOf(lines)| ==> KeyShaped(KvOf(lines)[i].0) && Stripped(KvOf(lines)[i].1)
  {
    var ms := Parses(lines);
    forall i | 0 <= i < |ms| && ms[i].Some? ensures KeyShaped(ms[i].value.0) && Stripped(ms[i].value.1) {
      MatchKvShaped(lines[i]);
    }
    CollectWellFormed(ms);
  }

  /** Parse `i` gives `k` the value `v` and no later parse sets `k`. */
  predicate LastSets(ms: seq<Option<(string, string)>>, k: string, v: string, i: int) {
    && 0 <= i < |ms|
    && ms[i] == Some((k, v))
    && forall j :: i < j < |ms| ==> ms[j].None? || ms[j].value.0 != k
  }

  /** The last pair that sets a key decides its value; a key no pair sets is absent. */
  lemma {:induction false} CollectLastWins(ms: seq<Option<(string, string)>>, k: string, v: string)
    ensures Get(Collect(ms), k) == Some(v) <==> exists i :: LastSets(ms, k, v, i)
  {
    if ms != [] {
      var n := |ms| - 1;
      CollectLastWins(ms[..n], k, v);
      match ms[n]
      case None =>
        LastSetsElsewhere(ms, ms[..n], k, v);
      case Some((k', v')) =>
        if k' == k {
          LastSetsHere(ms, k, v);
        } else {
          LastSetsElsewhere(ms, ms[..n], k, v);
        }
    }
  }

  /** When the last pair does not set `k`, the last pair setting it is the one before. */
  lemma LastSetsElsewhere(ms: seq<Option<(string, string)>>, init: seq<Option<(string, string)>>, k: string, v: string)
    requires ms != [] && init == ms[..|ms| - 1]
    requires ms[|ms| - 1].None? || ms[|ms| - 1].value.0 != k
    ensures (exists i :: LastSets(ms, k, v, i)) <==> exists i :: LastSets(init, k, v, i)
  {
    var n := |ms| - 1;
    if exists i :: LastSets(ms, k, v, i) {
      var i :| LastSets(ms, k, v, i);
      assert i < n;
      assert LastSets(init, k, v, i) by {
        forall j | i < j < n ensures init[j].None? || init[j].value.0 != k {
          assert init[j] == ms[j];
        }
      }
    }
    if exists i :: LastSets(init, k, v, i) {
      var i :| LastSets(init, k, v, i);
      assert LastSets(ms, k, v, i) by {
        forall j | i < j < |ms| ensures ms[j].None? || ms[j].value.0 != k {
          if j < n {
            assert init[j] == ms[j];
          }
        }
      }
    }
  }

  /** When the last pair sets `k`, it is the last pair setting it. */
  lemma LastSetsHere(ms: seq<Option<(string, string)>>, k: string, v: string)
    requires ms != [] && ms[|ms| - 1].Some? && ms[|ms| - 1].value.0 == k
    ensures (exists i :: LastSets(ms, k, v, i)) <==> ms[|ms| - 1].value.1 == v
  {
    var n := |ms| - 1;
    if exists i :: LastSets(ms, k, v, i) {
      var i :| LastSets(ms, k, v, i);
      assert i == n;
    }
    if ms[n].value.1 == v {
      assert LastSets(ms, k, v, n);
    }
  }

  /** The last line of the message that sets a key decides its value; a key no line sets is absent. */
  lemma KvOfLastWins(lines: seq<string>, k: string, v: string)
    ensures Get(KvOf(lines), k) == Some(v) <==> exists i :: LastSets(Parses(lines), k, v, i)
  {
    CollectLastWins(Parses(lines), k, v);
  }

  // ---------------------------------------------------------------------------
  // The heuristic guesser
  // ---------------------------------------------------------------------------

  const MacKeywords: seq<string> := ["macos", "mac os", "osx", "os x", "mac"]
  const IosKeywords: seq<string> := ["iphone", "ipad", "ios"]
  const LinuxKeywords: seq<string> := ["linux", "ubuntu", "debian", "mint"]

  /** The operating system named in the lower-cased message, by fixed precedence. */
  function OsGuess(m: string): (r: Option<string>)
    ensures r.Some? ==> r.value in {"Windows", "macOS", "Android", "iOS", "Linux"}
  {
    if Text.Contains(m, "windows") then Some("Windows")
    else if Text.ContainsAny(m, MacKeywords) then Some("macOS")
    else if Text.Contains(m, "android") then Some("Android")
    else if Text.ContainsAny(m, IosKeywords) then Some("iOS")
    else if Text.ContainsAny(m, LinuxKeywords) then Some("Linux")
    else None
  }

  /** `\b` at index `i`: a word character on exactly one side. */
  predicate Boundary(s: string, i: int)
    requires 0 <= i <= |s|
  {
    (i > 0 && Text.IsAsciiWordChar(s[i - 1])) != (i < |s| && Text.IsAsciiWordChar(s[i]))
  }

  /** `\bw\b` matches at index `i`. */
  predicate WordAt(s: string, w: string, i: int) {
    Text.OccursAt(s, w, i) && Boundary(s, i) && Boundary(s, i + |w|)
  }

  /** `.*` matches `s[i..j]`: no newline in between. */
  predicate OnOneLine(s: string, i: int, j: int)
    requires 0 <= i <= j <= |s|
  {
    forall k :: i <= k < j ==> s[k] != '\n'
  }

  /** `\b(mfa|2fa)\b` matches at `i`; both alternatives are three characters long. */
  predicate MfaAt(s: string, i: int) {
    WordAt(s, "mfa", i) || WordAt(s, "2fa", i)
  }

  /** `\b(yes|works|working)\b` matches at `j`. */
  predicate YesAt(s: string, j: int) {
    WordAt(s, "yes", j) || WordAt(s, "works", j) || WordAt(s, "working", j)
  }

  /** `\b(no|broken|fails|failing)\b` matches at `j`. */
  predicate NoAt(s: string, j: int) {
    WordAt(s, "no", j) || WordAt(s, "broken", j) || WordAt(s, "fails", j) || WordAt(s, "failing", j)
  }

  /** `re.search(r"\b(mfa|2fa)\b.*\b(yes|works|working)\b", s)` finds a match. */
  predicate MfaYes(s: string) {
    exists i, j | 0 <= i && i + 3 <= j <= |s| :: MfaAt(s, i) && OnOneLine(s, i + 3, j) && YesAt(s, j)
  }

  /** `re.search(r"\b(mfa|2fa)\b.*\b(no|broken|fails|failing)\b", s)` finds a match. */
  predicate MfaNo(s: string) {
    exists i, j | 0 <= i && i + 3 <= j <= |s| :: MfaAt(s, i) && OnOneLine(s, i + 3, j) && NoAt(s, j)
  }

  /** `_heuristic_field_guess`: at most an `os` and an `mfa_working` guess, from the lower-cased message. */
  function HeuristicFieldGuess(message: string): Dict<string>
  {
    var m := Text.Lower(message);
    Guesses(OsGuess(m), MfaYes(m), MfaNo(m))
  }

  /** The guesses in the order they are made: the OS, then "yes", then "no" over it. */
  function Guesses(os: Option<string>, yes: bool, no: bool): Dict<string>
  {
    var g := match os case Some(name) => [("os", name)] case None => [];
    var g := if yes then Put(g, "mfa_working", "yes") else g;
    if no then Put(g, "mfa_working", "no") else g
  }

  /** The guesses made from the OS found and the two MFA patterns: "no", tested last, overrides "yes". */
  lemma GuessesSpec(os: Option<string>, yes: bool, no: bool)
    ensures var g := Guesses(os, yes, no);
      && Get(g, "os") == os
      && Get(g, "mfa_working") == (if no then Some("no") else if yes then Some("yes") else None)
      && (forall k :: k != "os" && k != "mfa_working" ==> !HasKey(g, k))
      && KeysDistinct(g)
  {
    var g0: Dict<string> := match os case Some(name) => [("os", name)] case None => [];
    assert Get(g0, "os") == os && Get(g0, "mfa_working") == None;
    assert forall k :: k != "os" ==> !HasKey(g0, k);
    var g1 := if yes then Put(g0, "mfa_working", "yes") else g0;
    assert forall k :: k != "os" && k != "mfa_working" ==> !HasKey(g1, k);
  }

  /**
   * What the guesser returns: the OS by precedence, and an MFA answer where
   * the "no" pattern, tested last, overrides the "yes" pattern. Nothing else.
   */
  lemma HeuristicFieldGuessSpec(message: string)
    ensures var m := Text.Lower(message); var g := HeuristicFieldGuess(message);
      && Get(g, "os") == OsGuess(m)
      && Get(g, "mfa_working") == (if MfaNo(m) then Some("no") else if MfaYes(m) then Some("yes") else None)
      && (forall k :: k != "os" && k != "mfa_working" ==> !HasKey(g, k))
      && KeysDistinct(g)
  {
    var m := Text.Lower(message);
    GuessesSpec(OsGuess(m), MfaYes(m), MfaNo(m));
  }

  /** Windows beats every other OS keyword; macOS beats Android, iOS and Linux. */
  lemma OsPrecedence(m: string)
    ensures Text.Contains(m, "windows") ==> OsGuess(m) == Some("Windows")
    ensures !Text.Contains(m, "windows") && Text.Contains(m, "mac") ==> OsGuess(m) == Some("macOS")
  {
    if !Text.Contains(m, "windows") && Text.Contains(m, "mac") {
      assert MacKeywords[4] == "mac";
    }
  }

  /** A message saying both that MFA works and that it fails is recorded as failing. */
  lemma MfaNoWins()
    ensures Get(HeuristicFieldGuess("MFA works but 2FA fails"), "mfa_working") == Some("no")
  {
    var message := "MFA works but 2FA fails";
    assert Text.Lower(message) == "mfa works but 2fa fails";
    MfaNoIn("mfa works but 2fa fails");
    HeuristicFieldGuessSpec(message);
  }

  lemma MfaNoIn(m: string)
    requires m == "mfa works but 2fa fails"
    ensures MfaNo(m)
  {
    assert MfaAt(m, 0) by {
      assert m[0..3] == "mfa";
    }
    assert NoAt(m, 18) by {
      assert m[18..23] == "fails";
    }
    assert OnOneLine(m, 3, 18);
  }

  // ---------------------------------------------------------------------------
  // The three-pass merge
  // ---------------------------------------------------------------------------

  /** Pass 1: every context value that is not `None` fills its key if the key is absent. */
  function FillContext(d: Dict<Value>, ctx: Dict<Value>): Dict<Value>
  {
    if ctx == [] then d
    else
      var (k, v) := ctx[|ctx| - 1];
      var e := FillContext(d, ctx[..|ctx| - 1]);
      if v == Null then e else SetDefault(e, k, v)
  }

  /** Pass 2: every parsed pair overwrites its key. */
  function Overwrite(d: Dict<Value>, kv: Dict<string>): Dict<Value>
  {
    if kv == [] then d
    else
      var (k, v) := kv[|kv| - 1];
      Put(Overwrite(d, kv[..|kv| - 1]), k, Str(v))
  }

  /** Pass 3: every guess fills its key if the key is absent. */
  function FillGuesses(d: Dict<Value>, g: Dict<string>): Dict<Value>
  {
    if g == [] then d
    else
      var (k, v) := g[|g| - 1];
      SetDefault(FillGuesses(d, g[..|g| - 1]), k, Str(v))
  }

  /** The collected map after `_merge_collected`. */
  function Merged(d: Dict<Value>, req: ChatRequest): Dict<Value>
  {
    var kv := KvOf(Text.SplitLines(req.message));
    FillGuesses(Overwrite(FillContext(d, req.context), kv), HeuristicFieldGuess(req.message))
  }

  /** `_merge_collected`: the three passes, in order, over the session's collected map. */
  method MergeCollected(state: Session.SessionState, req: ChatRequest)
    modifies state`collected
    ensures state.collected == Merged(old(state.collected), req)
  {
    FillFromContext(state, req.context);
    var kv := ExtractKv(req.message);
    OverwriteParsed(state, kv);
    var guessed := HeuristicFieldGuess(req.message);
    FillFromGuesses(state, guessed);
  }

  /** Pass 1 of the merge. */
  method FillFromContext(state: Session.SessionState, ctx: Dict<Value>)
    modifies state`collected
    ensures state.collected == FillContext(old(state.collected), ctx)
  {
    ghost var d := state.collected;
    var i := 0;
    while i < |ctx|
      invariant 0 <= i <= |ctx|
      invariant state.collected == FillContext(d, ctx[..i])
    {
      assert ctx[..i + 1][..i] == ctx[..i];
      var (k, v) := ctx[i];
      if v != Null {
        state.collected := SetDefault(state.collected, k, v);
      }
      i := i + 1;
    }
    assert ctx[..|ctx|] == ctx;
  }

  /** Pass 2 of the merge. */
  method OverwriteParsed(state: Session.SessionState, kv: Dict<string>)
    modifies state`collected
    ensures state.collected == Overwrite(old(state.collected), kv)
  {
    ghost var d := state.collected;
    var i := 0;
    while i < |kv|
      invariant 0 <= i <= |kv|
      invariant state.collected == Overwrite(d, kv[..i])
    {
      assert kv[..i + 1][..i] == kv[..i];
      var (k, v) := kv[i];
      state.collected := Put(state.collected, k, Str(v));
      i := i + 1;
    }
    assert kv[..|kv|] == kv;
  }

  /** Pass 3 of the merge. */
  method FillFromGuesses(state: Session.SessionState, guessed: Dict<string>)
    modifies state`collected
    ensures state.collected == FillGuesses(old(state.collected), guessed)
  {
    ghost var d := state.collected;
    var i := 0;
    while i < |guessed|
      invariant 0 <= i <= |guessed|
      invariant state.collected == FillGuesses(d, guessed[..i])
    {
      assert guessed[..i + 1][..i] == guessed[..i];
      var (k, v) := guessed[i];
      state.collected := SetDefault(state.collected, k, Str(v));
      i := i + 1;
    }
    assert guessed[..|guessed|] == guessed;
  }

  // ---------------------------------------------------------------------------
  // What the merge guarantees
  // ---------------------------------------------------------------------------

  /** Reading a dict that ends with a pair whose key appears nowhere before it. */
  lemma GetAppend<V>(d: Dict<V>, k: string, v: V, k': string)
    requires !HasKey(d, k)
    ensures Get(d + [(k, v)], k') == if k' == k then Some(v) else Get(d, k')
  {
    IndexOfAppend(d, k, v, k');
  }

  /** A dict with distinct keys has no key of its last pair before it. */
  lemma LastKeyFresh<V>(d: Dict<V>)
    requires KeysDistinct(d) && d != []
    ensures !HasKey(d[..|d| - 1], d[|d| - 1].0)
  {
  }


  /** The first non-`None` context value under `k`, as pass 1 would take it. */
  function ContextValue(ctx: Dict<Value>, k: string): Option<Value> {
    match Get(ctx, k)
    case Some(v) => if v == Null then None else Some(v)
    case None => None
  }

  /** Pass 1 keeps what is there and otherwise takes the context's non-`None` value. */
  lemma {:induction false} FillContextGet(d: Dict<Value>, ctx: Dict<Value>, k: string)
    requires KeysDistinct(ctx)
    ensures Get(FillContext(d, ctx), k) == if HasKey(d, k) then Get(d, k) else ContextValue(ctx, k)
  {
    if ctx != [] {
      var init := ctx[..|ctx| - 1];
      var (k', v') := ctx[|ctx| - 1];
      LastKeyFresh(ctx);
      assert ctx == init + [(k', v')];
      GetAppend(init, k', v', k);
      FillContextGet(d, init, k);
      FillContextGet(d, init, k');
    }
  }

  /** Pass 2 gives every parsed key its parsed value and leaves every other key alone. */
  lemma {:induction false} OverwriteGet(d: Dict<Value>, kv: Dict<string>, k: string)
    requires KeysDistinct(kv)
    ensures Get(Overwrite(d, kv), k) == match Get(kv, k) case Some(v) => Some(Str(v)) case None => Get(d, k)
  {
    if kv != [] {
      var init := kv[..|kv| - 1];
      var (k', v') := kv[|kv| - 1];
      LastKeyFresh(kv);
      assert kv == init + [(k', v')];
      GetAppend(init, k', v', k);
      OverwriteGet(d, init, k);
    }
  }

  /** Pass 3 keeps what is there and otherwise takes the guess. */
  lemma {:induction false} FillGuessesGet(d: Dict<Value>, g: Dict<string>, k: string)
    requires KeysDistinct(g)
    ensures Get(FillGuesses(d, g), k) ==
      if HasKey(d, k) then Get(d, k) else match Get(g, k) case Some(v) => Some(Str(v)) case None => None
  {
    if g != [] {
      var init := g[..|g| - 1];
      var (k', v') := g[|g| - 1];
      LastKeyFresh(g);
      assert g == init + [(k', v')];
      GetAppend(init, k', v', k);
      FillGuessesGet(d, init, k);
      FillGuessesGet(d, init, k');
    }
  }

  /**
   * The override rules of the merge, key by key: a parsed `key: value` line
   * always wins; otherwise a value already collected stays; otherwise the
   * request context's non-`None` value fills the key; otherwise the guess does.
   */
  lemma MergedGet(d: Dict<Value>, req: ChatRequest, k: string)
    requires KeysDistinct(req.context)
    ensures var kv := KvOf(Text.SplitLines(req.message)); var g := HeuristicFieldGuess(req.message);
      Get(Merged(d, req), k) ==
        if Get(kv, k).Some? then Some(Str(Get(kv, k).value))
        else if HasKey(d, k) then Get(d, k)
        else if ContextValue(req.context, k).Some? then ContextValue(req.context, k)
        else match Get(g, k) case Some(v) => Some(Str(v)) case None => None
  {
    var kv := KvOf(Text.SplitLines(req.message));
    var g := HeuristicFieldGuess(req.message);
    var d1 := FillContext(d, req.context);
    var d2 := Overwrite(d1, kv);
    KvOfWellFormed(Text.SplitLines(req.message));
    HeuristicFieldGuessSpec(req.message);
    FillContextGet(d, req.context, k);
    OverwriteGet(d1, kv, k);
    FillGuessesGet(d2, g, k);
    HasKeyGet(d1, k);
    HasKeyGet(d2, k);
    HasKeyGet(d, k);
  }

  /** Keys are only ever added, at the end: the keys before a pass are a prefix of the keys after it. */
  lemma PutExtends<V>(d: Dict<V>, k: string, v: V)
    ensures Keys(d) <= Keys(Put(d, k, v))
  {
    if !HasKey(d, k) {
      assert Keys(Put(d, k, v))[..|d|] == Keys(d);
    }
  }

  lemma {:induction false} FillContextExtends(d: Dict<Value>, ctx: Dict<Value>)
    ensures Keys(d) <= Keys(FillContext(d, ctx))
  {
    if ctx != [] {
      var (k, v) := ctx[|ctx| - 1];
      var e := FillContext(d, ctx[..|ctx| - 1]);
      FillContextExtends(d, ctx[..|ctx| - 1]);
      PutExtends(e, k, v);
    }
  }

  lemma {:induction false} OverwriteExtends(d: Dict<Value>, kv: Dict<string>)
    ensures Keys(d) <= Keys(Overwrite(d, kv))
  {
    if kv != [] {
      var (k, v) := kv[|kv| - 1];
      OverwriteExtends(d, kv[..|kv| - 1]);
      PutExtends(Overwrite(d, kv[..|kv| - 1]), k, Str(v));
    }
  }

  lemma {:induction false} FillGuessesExtends(d: Dict<Value>, g: Dict<string>)
    ensures Keys(d) <= Keys(FillGuesses(d, g))
  {
    if g != [] {
      var (k, v) := g[|g| - 1];
      FillGuessesExtends(d, g[..|g| - 1]);
      PutExtends(FillGuesses(d, g[..|g| - 1]), k, Str(v));
    }
  }

  /** The merge never removes a key nor moves one: what was collected before keeps its place. */
  lemma MergedExtends(d: Dict<Value>, req: ChatRequest)
    ensures Keys(d) <= Keys(Merged(d, req))
    ensures forall k :: HasKey(d, k) ==> HasKey(Merged(d, req), k)
  {
    var kv := KvOf(Text.SplitLines(req.message));
    var d1 := FillContext(d, req.context);
    var d2 := Overwrite(d1, kv);
    FillContextExtends(d, req.context);
    OverwriteExtends(d1, kv);
    FillGuessesExtends(d2, HeuristicFieldGuess(req.message));
    forall k | HasKey(d, k) ensures HasKey(Merged(d, req), k) {
      HasKeyIn(d, k);
      HasKeyIn(Merged(d, req), k);
    }
  }
}

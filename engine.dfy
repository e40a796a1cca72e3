/**
 * The slot-filling flow engine: the flow definitions, the keyword classifier
 * that picks a category, the lookup that falls back to the default flow, and
 * the scan for the next required field still to be asked.
 */
module Engine {
  import opened Options
  import opened Dicts
  import opened Schemas
  import Text

  /** One category's definition: the fields it needs, in the order they are asked. */
  datatype Flow = Flow(
    key: string,
    description: string,
    requiredFields: seq<string>,
    questions: map<string, string>,
    maxSteps: int)

  /** A category entry as read from the flow configuration file; `None` is an absent entry. */
  datatype FlowConfig = FlowConfig(
    description: Option<string>,
    requiredFields: Option<seq<string>>,
    questions: Option<map<string, string>>,
    maxSteps: Option<int>)

  const DefaultMaxSteps := 6

  /** The flow registered under `key`: absent entries take their defaults. */
  function FlowFrom(key: string, cfg: FlowConfig): (f: Flow)
    ensures f.key == key
    ensures f.requiredFields == (if cfg.requiredFields.Some? then cfg.requiredFields.value else [])
    ensures f.maxSteps == (if cfg.maxSteps.Some? then cfg.maxSteps.value else DefaultMaxSteps)
  {
    Flow(key, cfg.description.GetOr(""), cfg.requiredFields.GetOr([]),
         cfg.questions.GetOr(map[]), cfg.maxSteps.GetOr(DefaultMaxSteps))
  }

  /** The flows registered from `cats`, in file order: a later entry under the same key replaces an earlier one. */
  function FlowsOf(cats: seq<(string, FlowConfig)>): map<string, Flow>
  {
    if cats == [] then map[]
    else
      var last := cats[|cats| - 1];
      FlowsOf(cats[..|cats| - 1])[last.0 := FlowFrom(last.0, last.1)]
  }

  /** Every category of the file is registered, under its own key and nothing else is. */
  lemma {:induction false} FlowsOfKeys(cats: seq<(string, FlowConfig)>, k: string)
    ensures k in FlowsOf(cats) <==> exists i :: 0 <= i < |cats| && cats[i].0 == k
    ensures k in FlowsOf(cats) ==> FlowsOf(cats)[k].key == k
  {
    if cats != [] {
      var init := cats[..|cats| - 1];
      FlowsOfKeys(init, k);
      if exists i :: 0 <= i < |init| && init[i].0 == k {
        var i :| 0 <= i < |init| && init[i].0 == k;
        assert cats[i].0 == k;
      }
      if exists i :: 0 <= i < |cats| && cats[i].0 == k {
        var i :| 0 <= i < |cats| && cats[i].0 == k;
        if i < |init| { assert init[i].0 == k; }
      }
    }
  }

  const VpnKeywords: seq<string> := ["vpn", "pulse", "anyconnect", "tunnel"]
  const EmailKeywords: seq<string> := ["outlook", "email", "mailbox", "owa", "exchange"]
  const WifiKeywords: seq<string> := ["wifi", "wi-fi", "wireless", "ssid"]

  /** The categories the classifier can answer. */
  const Categories: set<string> := {"vpn", "email", "wifi", "fallback"}

  class FlowRegistry {
    var flows: map<string, Flow>
    var fallback: Flow

    /** Every registered flow sits under its own key; the fallback flow's key is "fallback". */
    ghost predicate Valid()
      reads this
    {
      && (forall k :: k in flows ==> flows[k].key == k)
      && fallback.key == "fallback"
    }

    /** Loads the categories and the fallback entry of the (already parsed) flow configuration. */
    constructor (cats: seq<(string, FlowConfig)>, fallbackConfig: FlowConfig)
      ensures Valid()
      ensures flows == FlowsOf(cats)
      ensures fallback == FlowFrom("fallback", fallbackConfig)
    {
      var loaded: map<string, Flow> := map[];
      var i := 0;
      while i < |cats|
        invariant 0 <= i <= |cats|
        invariant loaded == FlowsOf(cats[..i])
      {
        var (key, cfg) := cats[i];
        assert cats[..i + 1][..i] == cats[..i];
        loaded := loaded[key := FlowFrom(key, cfg)];
        i := i + 1;
      }
      assert cats[..|cats|] == cats;
      flows := loaded;
      fallback := FlowFrom("fallback", fallbackConfig);
      new;
      forall k | k in flows ensures flows[k].key == k {
        FlowsOfKeys(cats, k);
      }
    }

    /**
     * The keyword classifier: the lower-cased message is tested against the
     * VPN, e-mail and Wi-Fi keyword groups in that order, and the first group
     * with any keyword inside the message names the category.
     */
    static function Classify(message: string): (r: string)
      ensures r in Categories
    {
      var m := Text.Lower(message);
      if Text.ContainsAny(m, VpnKeywords) then "vpn"
      else if Text.ContainsAny(m, EmailKeywords) then "email"
      else if Text.ContainsAny(m, WifiKeywords) then "wifi"
      else "fallback"
    }

    /** The flow registered under `key`, or the fallback flow: the lookup never fails. */
    function Get(key: string): (f: Flow)
      reads this
      ensures key in flows ==> f == flows[key]
      ensures key !in flows ==> f == fallback
      ensures Valid() ==> f.key == key || f.key == "fallback"
    {
      if key in flows then flows[key] else fallback
    }
  }

  /** Each category is chosen exactly when its group is the first, in the fixed order, with a keyword in the message. */
  lemma ClassifyFirstGroupWins(message: string)
    ensures var m := Text.Lower(message);
      && (FlowRegistry.Classify(message) == "vpn" <==> Text.ContainsAny(m, VpnKeywords))
      && (FlowRegistry.Classify(message) == "email" <==>
            !Text.ContainsAny(m, VpnKeywords) && Text.ContainsAny(m, EmailKeywords))
      && (FlowRegistry.Classify(message) == "wifi" <==>
            !Text.ContainsAny(m, VpnKeywords) && !Text.ContainsAny(m, EmailKeywords)
            && Text.ContainsAny(m, WifiKeywords))
      && (FlowRegistry.Classify(message) == "fallback" <==>
            !Text.ContainsAny(m, VpnKeywords) && !Text.ContainsAny(m, EmailKeywords)
            && !Text.ContainsAny(m, WifiKeywords))
  {
  }

  /** A message naming both a VPN client and a mail client is a VPN issue. */
  lemma VpnBeatsEmail()
    ensures FlowRegistry.Classify("VPN and Outlook down") == "vpn"
  {
    var m := Text.Lower("VPN and Outlook down");
    assert m[..3] == "vpn";
    Text.OccursAtContains(m, VpnKeywords[0], 0);
    assert VpnKeywords[0] in VpnKeywords;
  }

  /** Python's test for a slot still to fill: absent, `None`, or a string that is blank once stripped. */
  predicate IsMissing(v: Option<Value>) {
    || v.None?
    || v.value == Null
    || (v.value.Str? && Text.Strip(v.value.s) == "")
  }

  /** The first of `fields`, in order, that `collected` is missing. */
  function FirstMissing(fields: seq<string>, collected: Dict<Value>): (r: Option<string>)
    ensures r.Some? ==> r.value in fields && IsMissing(Get(collected, r.value))
    ensures r.None? ==> forall f :: f in fields ==> !IsMissing(Get(collected, f))
  {
    if fields == [] then None
    else if IsMissing(Get(collected, fields[0])) then Some(fields[0])
    else FirstMissing(fields[1..], collected)
  }

  /** The next required field of `flow` to ask for, or `None` when every one is filled. */
  function NextMissingField(flow: Flow, collected: Dict<Value>): (r: Option<string>)
    ensures r.Some? ==> r.value in flow.requiredFields
  {
    FirstMissing(flow.requiredFields, collected)
  }

  /**
   * The field returned is the first missing one in declared order: it sits at
   * an index before which every required field is filled; `None` is returned
   * exactly when every required field is filled.
   */
  lemma {:induction false} FirstMissingIsFirst(fields: seq<string>, collected: Dict<Value>)
    ensures FirstMissing(fields, collected).Some? ==>
      exists i :: 0 <= i < |fields| && fields[i] == FirstMissing(fields, collected).value
        && IsMissing(Get(collected, fields[i]))
        && forall j :: 0 <= j < i ==> !IsMissing(Get(collected, fields[j]))
    ensures FirstMissing(fields, collected).None? <==>
      forall i :: 0 <= i < |fields| ==> !IsMissing(Get(collected, fields[i]))
  {
    if fields != [] && !IsMissing(Get(collected, fields[0])) {
      var rest := fields[1..];
      FirstMissingIsFirst(rest, collected);
      if FirstMissing(rest, collected).Some? {
        var i :| 0 <= i < |rest| && rest[i] == FirstMissing(rest, collected).value
          && IsMissing(Get(collected, rest[i]))
          && forall j :: 0 <= j < i ==> !IsMissing(Get(collected, rest[j]));
        assert fields[i + 1] == rest[i];
        forall j | 0 <= j < i + 1 ensures !IsMissing(Get(collected, fields[j])) {
          if j > 0 { assert fields[j] == rest[j - 1]; }
        }
      } else {
        forall i | 0 <= i < |fields| ensures !IsMissing(Get(collected, fields[i])) {
          if i > 0 { assert fields[i] == rest[i - 1]; }
        }
      }
    }
  }

  lemma NextMissingFieldIsFirst(flow: Flow, collected: Dict<Value>)
    ensures var r := NextMissingField(flow, collected);
      && (r.Some? ==>
            exists i :: 0 <= i < |flow.requiredFields| && flow.requiredFields[i] == r.value
              && IsMissing(Get(collected, flow.requiredFields[i]))
              && forall j :: 0 <= j < i ==> !IsMissing(Get(collected, flow.requiredFields[j])))
      && (r.None? <==>
            forall i :: 0 <= i < |flow.requiredFields| ==>
              !IsMissing(Get(collected, flow.requiredFields[i])))
  {
    FirstMissingIsFirst(flow.requiredFields, collected);
  }

  /** A value that is not a string, such as 0 or False, fills its slot. */
  lemma NonStringFills(flow: Flow, collected: Dict<Value>)
    requires forall f :: f in flow.requiredFields ==>
      Get(collected, f).Some? && (Get(collected, f).value.Int? || Get(collected, f).value.Bool?)
    ensures NextMissingField(flow, collected) == None
  {
  }

  /** The configured question for `field`, or a prompt made up from the field's name. */
  function QuestionFor(flow: Flow, field: string): (q: string)
    ensures field in flow.questions ==> q == flow.questions[field]
    ensures field !in flow.questions ==> q == "Please provide: " + field
  {
    if field in flow.questions then flow.questions[field] else "Please provide: " + field
  }
}

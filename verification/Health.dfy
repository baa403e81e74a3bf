/** Rule identifiers, and what the health rules make of one snapshot. */
module Health {
  import opened Common
  import opened Protocol

  const MAX_RULE_ID_LEN := 48

  predicate IdChar(c: char) {
    'a' <= c <= 'z' || 'A' <= c <= 'Z' || '0' <= c <= '9' || c == '_' || c == '-'
  }

  /** What RuleId::new accepts. */
  predicate WellFormed(id: string) {
    0 < |id| <= MAX_RULE_ID_LEN && forall k :: 0 <= k < |id| ==> IdChar(id[k])
  }

  /** The limits of an identifier, on concrete ones: one to forty-eight letters, digits, underscores
      and dashes, and nothing else. */
  lemma IdLimits(n: nat)
    ensures WellFormed(seq(n, _ => 'a')) <==> 1 <= n <= 48
    ensures WellFormed("aZ09_-") && !WellFormed("a.b") && !WellFormed("a b") && !WellFormed("a/b")
  {
    var id: string := seq(n, _ => 'a');
    assert forall k :: 0 <= k < n ==> IdChar(id[k]);
    assert !IdChar("a.b"[1]) && !IdChar("a b"[1]) && !IdChar("a/b"[1]);
  }

  datatype IdCheck = Accepted | Malformed(at: nat) | Duplicate(at: nat)

  ghost predicate AcceptedUpTo(ids: seq<string>, n: nat)
    requires n <= |ids|
  {
    && (forall k :: 0 <= k < n ==> WellFormed(ids[k]))
    && (forall j, k :: 0 <= j < k < n ==> ids[j] != ids[k])
  }

  /** Stops at the first id that is malformed or was seen before. */
  method ValidateIds(ids: seq<string>) returns (r: IdCheck)
    ensures r.Accepted? <==> AcceptedUpTo(ids, |ids|)
    ensures r.Malformed? ==> r.at < |ids| && AcceptedUpTo(ids, r.at) && !WellFormed(ids[r.at])
    ensures r.Duplicate? ==>
      r.at < |ids| && AcceptedUpTo(ids, r.at) && WellFormed(ids[r.at]) && ids[r.at] in ids[..r.at]
  {
    var seen: set<string> := {};
    for k := 0 to |ids|
      invariant AcceptedUpTo(ids, k)
      invariant forall id :: id in seen <==> id in ids[..k]
    {
      var id := ids[k];
      if !WellFormed(id) {
        return Malformed(k);
      }
      if id in seen {
        return Duplicate(k);
      }
      seen := seen + {id};
      assert ids[..k + 1] == ids[..k] + [id];
    }
    return Accepted;
  }

  /** A rule with the outcome of its condition and its rendered message for one snapshot. */
  datatype Rule = Rule(id: string, severity: HealthLevel, fires: bool, message: string)

  datatype Report = Report(level: HealthLevel, message: string)

  function IncidentOf(rule: Rule): Incident {
    Incident(IncidentId.Rule(rule.id), rule.severity, rule.message)
  }

  /** The incidents of the rules that fire, in the rules' order. */
  function Raised(rules: seq<Rule>): seq<Incident>
  {
    if rules == [] then []
    else
      var last := rules[|rules| - 1];
      Raised(rules[..|rules| - 1]) + if last.fires then [IncidentOf(last)] else []
  }

  const FIRES: Rule -> bool := (rule: Rule) => rule.fires

  const AS_INCIDENT: Rule -> Incident :=
    (rule: Rule) => Incident(IncidentId.Rule(rule.id), rule.severity, rule.message)

  /** The incidents are those of the rules that fire, one for each and in the rules' order, with
      the rule's identifier, severity and message. */
  ghost predicate OfFiring(rules: seq<Rule>, incidents: seq<Incident>) {
    exists at :: Picks(rules, FIRES, AS_INCIDENT, incidents, at)
  }

  lemma {:induction false} RaisedIsOfFiring(rules: seq<Rule>) returns (at: seq<nat>)
    ensures Picks(rules, FIRES, AS_INCIDENT, Raised(rules), at)
  {
    if rules == [] {
      at := [];
    } else {
      var init, last := rules[..|rules| - 1], rules[|rules| - 1];
      at := RaisedIsOfFiring(init);
      PicksOneMore(init, FIRES, AS_INCIDENT, Raised(init), at, last);
      assert init + [last] == rules;
      if last.fires {
        at := at + [|init|];
      }
    }
  }

  /** The gravest level among the incidents, told by which levels there are. */
  ghost predicate GravestLevel(incidents: seq<Incident>, level: HealthLevel)
  {
    match level
    case Critical => exists k :: 0 <= k < |incidents| && incidents[k].level == Critical
    case Warning =>
      && (exists k :: 0 <= k < |incidents| && incidents[k].level == Warning)
      && (forall k :: 0 <= k < |incidents| ==> incidents[k].level != Critical)
    case Healthy =>
      incidents != [] && forall k :: 0 <= k < |incidents| ==> incidents[k].level == Healthy
  }

  /** The incident `k` is the first one of the gravest level. */
  ghost predicate FirstOfGravest(incidents: seq<Incident>, k: nat)
  {
    && k < |incidents| && GravestLevel(incidents, incidents[k].level)
    && forall j :: 0 <= j < k ==> incidents[j].level != incidents[k].level
  }

  lemma GravestIsByLevel(incidents: seq<Incident>, k: nat)
    requires FirstGravest(incidents, k)
    ensures FirstOfGravest(incidents, k)
  {
    assert incidents[k].level == incidents[k].level;
  }

  /** `k` is the first of the gravest incidents. */
  ghost predicate FirstGravest(incidents: seq<Incident>, k: nat)
  {
    && k < |incidents|
    && (forall j :: 0 <= j < k ==> incidents[j].level.Priority() < incidents[k].level.Priority())
    && (forall j :: k <= j < |incidents| ==> incidents[j].level.Priority() <= incidents[k].level.Priority())
  }

  /** The fold over the incidents. */
  method PrimaryReport(incidents: seq<Incident>, healthy: Report) returns (primary: Report)
    ensures incidents == [] ==> primary == healthy
    ensures incidents != [] ==>
      exists k: nat :: FirstOfGravest(incidents, k) && primary == Report(incidents[k].level, incidents[k].message)
  {
    if incidents == [] {
      return healthy;
    }
    var first := 0;
    for n := 1 to |incidents|
      invariant first < n && FirstGravest(incidents[..n], first)
    {
      ghost var seen := incidents[..n];
      assert forall j :: 0 <= j < n ==> incidents[j] == seen[j];
      if incidents[n].level.Priority() > incidents[first].level.Priority() {
        first := n;
      }
    }
    assert incidents[..|incidents|] == incidents;
    GravestIsByLevel(incidents, first);
    primary := Report(incidents[first].level, incidents[first].message);
  }

  method EvaluateHealth(rules: seq<Rule>, healthy: Report) returns (primary: Report, incidents: seq<Incident>)
    ensures incidents == Raised(rules) && OfFiring(rules, incidents)
    ensures incidents == [] ==> primary == healthy
    ensures incidents != [] ==>
      exists k: nat :: FirstOfGravest(incidents, k) && primary == Report(incidents[k].level, incidents[k].message)
  {
    incidents := [];
    for n := 0 to |rules|
      invariant incidents == Raised(rules[..n])
    {
      assert rules[..n + 1][..n] == rules[..n];
      if rules[n].fires {
        incidents := incidents + [IncidentOf(rules[n])];
      }
    }
    assert rules[..|rules|] == rules;
    ghost var at := RaisedIsOfFiring(rules);
    primary := PrimaryReport(incidents, healthy);
  }

  ghost predicate Distinct(incidents: seq<Incident>) {
    forall j, k :: 0 <= j < k < |incidents| ==> incidents[j].id != incidents[k].id
  }

  function Ids(rules: seq<Rule>): seq<string> {
    seq(|rules|, k requires 0 <= k < |rules| => rules[k].id)
  }

  lemma {:induction false} RaisedFromRules(rules: seq<Rule>, incident: Incident)
    requires incident in Raised(rules)
    ensures exists k :: 0 <= k < |rules| && rules[k].fires && incident == IncidentOf(rules[k])
  {
    var init := rules[..|rules| - 1];
    if incident in Raised(init) {
      RaisedFromRules(init, incident);
      var k :| 0 <= k < |init| && init[k].fires && incident == IncidentOf(init[k]);
      assert rules[k] == init[k];
    }
  }

  /** Incidents of validated rules have distinct identities. */
  lemma {:induction false} RaisedDistinct(rules: seq<Rule>)
    requires AcceptedUpTo(Ids(rules), |rules|)
    ensures Distinct(Raised(rules))
    ensures forall k :: 0 <= k < |Raised(rules)| ==> Raised(rules)[k].id.Rule?
  {
    if rules != [] {
      var init, last := rules[..|rules| - 1], rules[|rules| - 1];
      assert forall k :: 0 <= k < |init| ==> Ids(init)[k] == Ids(rules)[k];
      RaisedDistinct(init);
      forall j | 0 <= j < |Raised(init)| ensures Raised(init)[j].id != IncidentId.Rule(last.id) {
        RaisedFromRules(init, Raised(init)[j]);
        var k :| 0 <= k < |init| && init[k].fires && Raised(init)[j] == IncidentOf(init[k]);
        assert Ids(rules)[k] != Ids(rules)[|init|];
      }
    }
  }
}

/** `validate_documents(policy_json, claim_json)` (stream_invoice_clean.py:329-499): a rule
    engine that compares a decoded policy schedule with a decoded claim document and
    accumulates its findings through the `add_check` closure in the `validation_results`
    dictionary. `datetime.strptime` is an abstract parser of one date text in one format. */
module Validation {
  import opened Common
  import opened Text
  import opened Json

  /** The three `status` strings `add_check` is called with: "PASS", "FAIL", "WARNING". */
  datatype Status = Pass | Fail | Warning

  /** The `severity` argument: the default "error", or "warning". */
  datatype Severity = Error | Warn

  /** The seven rule names the engine reports under. */
  datatype Rule =
    | PolicyNumberMatch
    | VehicleRegistrationMatch
    | VehicleMakeMatch
    | VehicleModelMatch
    | HolderClaimantMatch
    | IncidentDateWithinPeriod
    | ClaimAmountWithinRange

  /** The `rule_name` text of each rule. */
  function RuleName(r: Rule): string {
    match r
    case PolicyNumberMatch => "Policy Number Match"
    case VehicleRegistrationMatch => "Vehicle Registration Match"
    case VehicleMakeMatch => "Vehicle Make Match"
    case VehicleModelMatch => "Vehicle Model Match"
    case HolderClaimantMatch => "Policy Holder/Claimant Match"
    case IncidentDateWithinPeriod => "Incident Date within Policy Period"
    case ClaimAmountWithinRange => "Claim Amount within Range"
  }

  /** One entry of `validation_results["checks"]`. */
  datatype Check = Check(rule: Rule, status: Status, message: string, severity: Severity)

  /** The dictionary `validate_documents` returns. `overallStatus` is only ever `Pass` or
      `Fail`. */
  datatype Report = Report(
    overallStatus: Status,
    totalChecks: nat,
    passedChecks: nat,
    failedChecks: nat,
    warnings: nat,
    checks: seq<Check>)

  /** The `AttributeError` raised when `.get` is called on a value that is not a dict; the
      engine has no `try` around its lookups, so it propagates to the caller. */
  datatype Failure = AttributeError(receiver: string)

  // ----- what add_check accumulates -----

  /** The number of checks with status `s`. */
  function CountStatus(checks: seq<Check>, s: Status): (n: nat)
    ensures n <= |checks|
  {
    if checks == [] then 0
    else CountStatus(checks[..|checks| - 1], s) + (if checks[|checks| - 1].status == s then 1 else 0)
  }

  /** The number of failed checks of severity "error", the ones that set `overall_status`. */
  function ErrorFailures(checks: seq<Check>): nat {
    if checks == [] then 0
    else
      var c := checks[|checks| - 1];
      ErrorFailures(checks[..|checks| - 1]) + (if c.status == Fail && c.severity == Error then 1 else 0)
  }

  /** `validation_results` after `add_check` was called once per entry of `checks`, in
      order, starting from the initial dictionary of stream_invoice_clean.py:332-339. */
  function Summary(checks: seq<Check>): Report {
    Report(
      if ErrorFailures(checks) > 0 then Fail else Pass,
      |checks|,
      CountStatus(checks, Pass),
      CountStatus(checks, Fail),
      CountStatus(checks, Warning),
      checks)
  }

  /** Every check is counted exactly once: `total_checks == passed_checks + failed_checks
      + warnings == len(checks)`. */
  lemma {:induction false} CountsAddUp(checks: seq<Check>)
    ensures var r := Summary(checks);
      r.totalChecks == r.passedChecks + r.failedChecks + r.warnings == |r.checks|
  {
    if checks != [] {
      CountsAddUp(checks[..|checks| - 1]);
    }
  }

  /** When every FAIL carries the default severity, the overall status is FAIL exactly
      when some check failed. */
  lemma {:induction false} OverallFailIff(checks: seq<Check>)
    requires FailsAreErrorsIn(checks)
    ensures (Summary(checks).overallStatus == Fail) <==> Summary(checks).failedChecks > 0
    ensures Summary(checks).overallStatus != Warning
  {
    if checks != [] {
      var init := checks[..|checks| - 1];
      assert checks == init + [checks[|checks| - 1]];
      OverallFailIff(init);
    }
  }

  /** One more check moves each counter by its status, and a failed check of severity
      "error" makes the overall status FAIL. */
  lemma SummaryOfAppend(checks: seq<Check>, c: Check)
    ensures var s, t := Summary(checks), Summary(checks + [c]);
      t.totalChecks == s.totalChecks + 1
      && t.passedChecks == s.passedChecks + (if c.status == Pass then 1 else 0)
      && t.failedChecks == s.failedChecks + (if c.status == Fail then 1 else 0)
      && t.warnings == s.warnings + (if c.status == Warning then 1 else 0)
      && t.overallStatus == (if c.status == Fail && c.severity == Error then Fail else s.overallStatus)
      && t.checks == checks + [c]
  {
    assert (checks + [c])[..|checks|] == checks;
  }

  /** Every FAIL among `checks` has the default "error" severity. */
  predicate FailsAreErrorsIn(checks: seq<Check>) {
    forall c :: c in checks && c.status == Fail ==> c.severity == Error
  }

  /** The mutable `validation_results` dictionary that the `add_check` closure updates. */
  class Results {
    var overallStatus: Status
    var totalChecks: nat
    var passedChecks: nat
    var failedChecks: nat
    var warnings: nat
    var checks: seq<Check>

    function Snapshot(): Report
      reads this
    {
      Report(overallStatus, totalChecks, passedChecks, failedChecks, warnings, checks)
    }

    /** The counters and the status agree with the list of checks. */
    ghost predicate Valid()
      reads this
    {
      Snapshot() == Summary(checks)
    }

    /** The initial dictionary: status PASS, all counters 0, no checks. */
    constructor()
      ensures Valid() && checks == []
    {
      overallStatus := Pass;
      totalChecks := 0;
      passedChecks := 0;
      failedChecks := 0;
      warnings := 0;
      checks := [];
    }

    /** `add_check(rule_name, status, message, severity)` (stream_invoice_clean.py:341-358). */
    method AddCheck(rule: Rule, status: Status, message: string, severity: Severity)
      requires Valid()
      modifies this
      ensures Valid()
      ensures checks == old(checks) + [Check(rule, status, message, severity)]
    {
      SummaryOfAppend(checks, Check(rule, status, message, severity));
      totalChecks := totalChecks + 1;
      if status == Pass {
        passedChecks := passedChecks + 1;
      } else if status == Fail {
        failedChecks := failedChecks + 1;
        if severity == Error {
          overallStatus := Fail;
        }
      } else if status == Warning {
        warnings := warnings + 1;
      }
      checks := checks + [Check(rule, status, message, severity)];
    }
  }

  // ----- the looked-up values -----

  const EmptyObject: Json := JObject([])
  const EmptyString: Json := JString("")

  /** The raw values the rules read, each as `.get` returned it. */
  datatype Fields = Fields(
    regPolicy: Json, regClaim: Json,
    makePolicy: Json, makeClaim: Json,
    modelPolicy: Json, modelClaim: Json,
    holderName: Json, claimantName: Json,
    policyStart: Json, policyEnd: Json, incidentDate: Json)

  /** The `.get` calls of stream_invoice_clean.py:376-440 in source order, with their
      defaults; the first call on a value that is not a dict raises. */
  function Lookups(policy: Json, claim: Json): (r: Result<Fields, Failure>)
    ensures r.Ok? <==>
      policy.JObject? && claim.JObject?
      && Get(policy, "insured_vehicle", EmptyObject).value.JObject?
      && Get(claim, "vehicle_details", EmptyObject).value.JObject?
      && Get(policy, "policy_period", EmptyObject).value.JObject?
  {
    if !policy.JObject? then Err(AttributeError("policy_json"))
    else if !claim.JObject? then Err(AttributeError("claim_json"))
    else
      var vehiclePolicy := Get(policy, "insured_vehicle", EmptyObject).value;
      var vehicleClaim := Get(claim, "vehicle_details", EmptyObject).value;
      if !vehiclePolicy.JObject? then Err(AttributeError("insured_vehicle"))
      else if !vehicleClaim.JObject? then Err(AttributeError("vehicle_details"))
      else
        var period := Get(policy, "policy_period", EmptyObject).value;
        if !period.JObject? then Err(AttributeError("policy_period"))
        else
          Ok(Fields(
            Get(vehiclePolicy, "registration_number", EmptyString).value,
            Get(vehicleClaim, "registration_number", EmptyString).value,
            Get(vehiclePolicy, "make", EmptyString).value,
            Get(vehicleClaim, "make", EmptyString).value,
            Get(vehiclePolicy, "model", EmptyString).value,
            Get(vehicleClaim, "model", EmptyString).value,
            Get(policy, "policy_holder_name", EmptyString).value,
            Get(claim, "claimant_name", EmptyString).value,
            Get(period, "start_date", JNull).value,
            Get(period, "end_date", JNull).value,
            Get(claim, "incident_date", JNull).value))
  }

  // ----- rule 1: policy number -----

  /** `str(253200/31/2022/191)`: the policy number is hard-coded as a float division
      (stream_invoice_clean.py:361-362). */
  const PolicyNumberText: string := "0.021148885649178075"
  const PolicyNumber: Json := JFloat(PolicyNumberText)

  /** Rule 1 (stream_invoice_clean.py:364-373). */
  function PolicyNumberCheck(numPolicy: Json, numClaim: Json): (c: Check)
    ensures c.rule == PolicyNumberMatch
    ensures c.status == Pass <==> Truthy(numPolicy) && Truthy(numClaim) && Strip(PyStr(numPolicy)) == Strip(PyStr(numClaim))
    ensures c.status == Warning <==> !(Truthy(numPolicy) && Truthy(numClaim))
    ensures c.severity == Warn <==> c.status == Warning
  {
    if Truthy(numPolicy) && Truthy(numClaim) then
      if Strip(PyStr(numPolicy)) == Strip(PyStr(numClaim)) then
        Check(PolicyNumberMatch, Pass, "Policy numbers match: " + PyStr(numPolicy), Error)
      else
        Check(PolicyNumberMatch, Fail,
              "Policy numbers don't match. Policy: " + PyStr(numPolicy) + ", Claim: " + PyStr(numClaim), Error)
    else
      Check(PolicyNumberMatch, Warning, "Policy number missing in one or both documents", Warn)
  }

  // ----- rule 2: registration -----

  /** `str(x).strip().upper().replace(" ", "")`. */
  function RegistrationKey(x: Json): (k: string)
    ensures ' ' !in k
  {
    RemoveAll(Upper(Strip(PyStr(x))), ' ')
  }

  /** Rule 2 (stream_invoice_clean.py:379-391): compares the registration keys. */
  function RegistrationCheck(regPolicy: Json, regClaim: Json): (c: Check)
    ensures c.rule == VehicleRegistrationMatch
    ensures var (p, q) := (RegistrationKey(regPolicy), RegistrationKey(regClaim));
      (c.status == Pass <==> p != [] && p == q)
      && (c.status == Fail <==> p != [] && q != [] && p != q)
      && (c.status == Warning <==> p == [] || q == [])
    ensures c.severity == Warn <==> c.status == Warning
    ensures c.status == Fail ==> c.severity == Error
  {
    var p := RegistrationKey(regPolicy);
    var q := RegistrationKey(regClaim);
    if p != [] && q != [] then
      if p == q then Check(VehicleRegistrationMatch, Pass, "Vehicle registration matches: " + p, Error)
      else Check(VehicleRegistrationMatch, Fail,
                 "Vehicle registration doesn't match. Policy: " + p + ", Claim: " + q, Error)
    else
      Check(VehicleRegistrationMatch, Warning, "Vehicle registration missing in one or both documents", Warn)
  }

  /** The registration comparison ignores letter case. */
  lemma RegistrationIgnoresCase(s: string)
    ensures RegistrationKey(JString(Upper(s))) == RegistrationKey(JString(s))
  {
    StripUpper(s);
    UpperIdempotent(Strip(s));
  }

  /** The registration comparison ignores a space between two parts. */
  lemma RegistrationIgnoresSpaces(a: string, b: string)
    requires a != [] && b != [] && !IsSpace(a[0]) && !IsSpace(b[|b| - 1])
    ensures RegistrationKey(JString(a + " " + b)) == RegistrationKey(JString(a + b))
  {
    var spaced, joined := a + " " + b, a + b;
    var ua, ub := Upper(a), Upper(b);
    assert spaced[0] == a[0] && spaced[|spaced| - 1] == b[|b| - 1];
    assert joined[0] == a[0] && joined[|joined| - 1] == b[|b| - 1];
    calc {
      RegistrationKey(JString(spaced));
      RemoveAll(Upper(Strip(spaced)), ' ');
      { StripOfStripped(spaced); }
      RemoveAll(Upper(spaced), ' ');
      { UpperAroundSpace(a, b); }
      RemoveAll(ua + " " + ub, ' ');
      { RemoveSpaceBetween(ua, ub); }
      RemoveAll(ua + ub, ' ');
      { UpperAppend(a, b); }
      RemoveAll(Upper(joined), ' ');
      { StripOfStripped(joined); }
      RemoveAll(Upper(Strip(joined)), ' ');
      RegistrationKey(JString(joined));
    }
  }

  lemma UpperAroundSpace(a: string, b: string)
    ensures Upper(a + " " + b) == Upper(a) + " " + Upper(b)
  {
    UpperAppend(a + " ", b);
    UpperAppend(a, " ");
    assert Upper(" ") == " ";
  }

  lemma RemoveSpaceBetween(x: string, y: string)
    ensures RemoveAll(x + " " + y, ' ') == RemoveAll(x + y, ' ')
  {
    RemoveAllAppend(x + " ", y, ' ');
    RemoveAllAppend(x, " ", ' ');
    RemoveAllAppend(x, y, ' ');
    assert RemoveAll(" ", ' ') == [];
    assert RemoveAll(x + " ", ' ') == RemoveAll(x, ' ');
  }

  /** `str(None)` is "None", so two JSON nulls count as present and as equal registrations. */
  lemma NullRegistrationKey()
    ensures RegistrationKey(JNull) == "NONE"
  {
    assert Upper("None") == "NONE";
    UnspacedRegistrationKey(JNull, "None", "NONE");
  }

  /** A registration with no space inside or around it is only upper-cased. */
  lemma UnspacedRegistrationKey(x: Json, s: string, u: string)
    requires PyStr(x) == s && s != [] && !IsSpace(s[0]) && !IsSpace(s[|s| - 1])
    requires Upper(s) == u && ' ' !in u
    ensures RegistrationKey(x) == u
  {
    StripOfStripped(s);
    RemoveAllAbsent(u, ' ');
  }

  lemma NullRegistrationsMatch()
    ensures RegistrationCheck(JNull, JNull).status == Pass
  {
    NullRegistrationKey();
  }

  // ----- rule 3: make and model -----

  /** `str(x).strip().upper()`. */
  function Key(x: Json): string {
    Upper(Strip(PyStr(x)))
  }

  /** Either text contains the other. */
  predicate Overlaps(p: string, q: string) {
    Contains(q, p) || Contains(p, q)
  }

  /** The make half of rule 3 (stream_invoice_clean.py:399-405): no check when either
      make is blank. */
  function MakeCheck(makePolicy: Json, makeClaim: Json): (cs: seq<Check>)
    ensures |cs| <= 1
    ensures |cs| == 1 <==> Key(makePolicy) != [] && Key(makeClaim) != []
    ensures forall c :: c in cs ==> c.rule == VehicleMakeMatch && c.severity == Error
    ensures |cs| == 1 ==> cs[0].rule == VehicleMakeMatch && cs[0].severity == Error
                          && (cs[0].status == Pass <==> Overlaps(Key(makePolicy), Key(makeClaim)))
                          && cs[0].status != Warning
  {
    var p := Key(makePolicy);
    var q := Key(makeClaim);
    if p != [] && q != [] then
      if Overlaps(p, q) then [Check(VehicleMakeMatch, Pass, "Vehicle make matches: " + p, Error)]
      else [Check(VehicleMakeMatch, Fail, "Vehicle make doesn't match. Policy: " + p + ", Claim: " + q, Error)]
    else []
  }

  /** The model half of rule 3 (stream_invoice_clean.py:407-413): a mismatch only warns. */
  function ModelCheck(modelPolicy: Json, modelClaim: Json): (cs: seq<Check>)
    ensures |cs| <= 1
    ensures |cs| == 1 <==> Key(modelPolicy) != [] && Key(modelClaim) != []
    ensures forall c :: c in cs ==> c.rule == VehicleModelMatch && c.status != Fail
    ensures |cs| == 1 ==> cs[0].rule == VehicleModelMatch
                          && (cs[0].status == Pass <==> Overlaps(Key(modelPolicy), Key(modelClaim)))
                          && cs[0].status != Fail
  {
    var p := Key(modelPolicy);
    var q := Key(modelClaim);
    if p != [] && q != [] then
      if Overlaps(p, q) then [Check(VehicleModelMatch, Pass, "Vehicle model matches: " + p, Error)]
      else [Check(VehicleModelMatch, Warning, "Vehicle model doesn't match. Policy: " + p + ", Claim: " + q, Warn)]
    else []
  }

  // ----- rule 4: names -----

  /** `set(name.split())`. */
  function Words(name: string): set<string> {
    set w | w in Split(name)
  }

  /** `len(common_parts) >= len(holder_parts) * 0.5`, exact for counts of this size. */
  predicate NamesMatch(holder: string, claimant: string) {
    2 * |Words(holder) * Words(claimant)| >= |Words(holder)|
  }

  /** Rule 4 (stream_invoice_clean.py:416-432). */
  function NameCheck(holderName: Json, claimantName: Json): (c: Check)
    ensures c.rule == HolderClaimantMatch
    ensures c.status == Pass <==>
      Key(holderName) != [] && Key(claimantName) != [] && NamesMatch(Key(holderName), Key(claimantName))
    ensures c.status != Fail
  {
    var h := Key(holderName);
    var n := Key(claimantName);
    if h != [] && n != [] then
      if NamesMatch(h, n) then
        Check(HolderClaimantMatch, Pass, "Names match reasonably: " + h + " ~ " + n, Error)
      else
        Check(HolderClaimantMatch, Warning,
              "Names may not match. Policy Holder: " + h + ", Claimant: " + n, Warn)
    else
      Check(HolderClaimantMatch, Warning, "Names missing in one or both documents", Warn)
  }

  /** A holder name shares all its words with itself, so the same name passes. */
  lemma SameNamePasses(name: Json)
    requires Key(name) != []
    ensures NameCheck(name, name).status == Pass
  {
    var w := Words(Key(name));
    assert w * w == w;
  }

  /** A JSON null name is present ("NONE"), so two null names pass. */
  lemma NullNamesPass()
    ensures NameCheck(JNull, JNull).status == Pass
  {
    assert PyStr(JNull) == "None";
    StripOfStripped("None");
    assert Key(JNull) == Upper("None");
    assert Upper("None")[0] == 'N';
    SameNamePasses(JNull);
  }

  // ----- rule 5: dates -----

  /** A `datetime` produced by `strptime` from a date-only format: midnight of that day. */
  datatype Date = Date(year: int, month: int, day: int)

  /** `datetime` order on midnights: by year, then month, then day. */
  predicate DateLe(a: Date, b: Date) {
    a.year < b.year || (a.year == b.year && (a.month < b.month || (a.month == b.month && a.day <= b.day)))
  }

  /** `datetime.strptime(text, fmt)`, `None` where it raises. */
  type DateParser = (string, string) -> Option<Date>

  const DateFormats: seq<string> := ["%Y-%m-%d", "%d-%m-%Y", "%d/%m/%Y", "%Y/%m/%d", "%d.%m.%Y"]

  /** The result of the first format in `formats` that parses `text`. */
  function FirstParse(text: string, formats: seq<string>, strptime: DateParser): (r: Option<Date>)
    ensures r.None? <==> forall k :: 0 <= k < |formats| ==> strptime(text, formats[k]).None?
  {
    if formats == [] then None
    else if strptime(text, formats[0]).Some? then strptime(text, formats[0])
    else
      assert forall k :: 1 <= k < |formats| ==> formats[k] == formats[1..][k - 1];
      FirstParse(text, formats[1..], strptime)
  }

  /** A parsed date comes from the first format that accepts the text. */
  lemma {:induction false} FirstParseIsFirst(text: string, formats: seq<string>, strptime: DateParser)
    returns (k: nat)
    requires FirstParse(text, formats, strptime).Some?
    ensures k < |formats| && strptime(text, formats[k]) == FirstParse(text, formats, strptime)
    ensures forall m :: 0 <= m < k ==> strptime(text, formats[m]).None?
  {
    if strptime(text, formats[0]).Some? {
      k := 0;
    } else {
      var k' := FirstParseIsFirst(text, formats[1..], strptime);
      k := k' + 1;
      assert formats[k] == formats[1..][k'];
      forall m | 0 <= m < k ensures strptime(text, formats[m]).None? {
        if m > 0 { assert formats[m] == formats[1..][m - 1]; }
      }
    }
  }

  /** What `parse_date(date_str)` returns: the first format that parses `str(date_str).strip()`. */
  function ParsedDate(dateStr: Json, strptime: DateParser): (d: Option<Date>)
    ensures d.None? <==> forall k :: 0 <= k < |DateFormats| ==> strptime(Strip(PyStr(dateStr)), DateFormats[k]).None?
  {
    FirstParse(Strip(PyStr(dateStr)), DateFormats, strptime)
  }

  /** `parse_date(date_str)` (stream_invoice_clean.py:446-452): tries the formats in order
      on `str(date_str).strip()`. */
  method ParseDate(dateStr: Json, strptime: DateParser) returns (d: Option<Date>)
    ensures d == ParsedDate(dateStr, strptime)
  {
    for k := 0 to |DateFormats|
      invariant FirstParse(Strip(PyStr(dateStr)), DateFormats, strptime)
                == FirstParse(Strip(PyStr(dateStr)), DateFormats[k..], strptime)
    {
      var attempt := strptime(Strip(PyStr(dateStr)), DateFormats[k]);
      assert DateFormats[k..][0] == DateFormats[k] && DateFormats[k..][1..] == DateFormats[k + 1..];
      if attempt.Some? {
        return attempt;
      }
    }
    return None;
  }

  /** The verdict of rule 5 once the three dates went through `parse_date`
      (stream_invoice_clean.py:458-467). */
  function DateVerdict(policyStart: Json, policyEnd: Json, incidentDate: Json,
                       start: Option<Date>, end: Option<Date>, incident: Option<Date>): (c: Check)
    ensures c.rule == IncidentDateWithinPeriod
    ensures c.status == Pass <==>
      start.Some? && end.Some? && incident.Some? && DateLe(start.value, incident.value) && DateLe(incident.value, end.value)
    ensures c.status == Fail <==>
      start.Some? && end.Some? && incident.Some? && !(DateLe(start.value, incident.value) && DateLe(incident.value, end.value))
    ensures c.severity == Warn <==> c.status == Warning
  {
    var period := "(" + PyStr(policyStart) + " to " + PyStr(policyEnd) + ")";
    if start.Some? && end.Some? && incident.Some? then
      if DateLe(start.value, incident.value) && DateLe(incident.value, end.value) then
        Check(IncidentDateWithinPeriod, Pass,
              "Incident date (" + PyStr(incidentDate) + ") is within policy period " + period, Error)
      else
        Check(IncidentDateWithinPeriod, Fail,
              "Incident date (" + PyStr(incidentDate) + ") is outside policy period " + period, Error)
    else
      Check(IncidentDateWithinPeriod, Warning, "Could not parse dates for validation", Warn)
  }

  lemma DateLeReflexive(d: Date)
    ensures DateLe(d, d)
  {
  }

  /** The period is closed: an incident on the first or the last day passes. */
  lemma BoundaryDatesPass(policyStart: Json, policyEnd: Json, incidentDate: Json, start: Date, end: Date)
    requires DateLe(start, end)
    ensures DateVerdict(policyStart, policyEnd, incidentDate, Some(start), Some(end), Some(start)).status == Pass
    ensures DateVerdict(policyStart, policyEnd, incidentDate, Some(start), Some(end), Some(end)).status == Pass
  {
    DateLeReflexive(start);
    DateLeReflexive(end);
  }

  const MissingDates: Check := Check(IncidentDateWithinPeriod, Warning, "Date information missing", Warn)

  /** The rule 5 block (stream_invoice_clean.py:442-473), parsing the three dates with
      `parse_date`. */
  method DateRule(policyStart: Json, policyEnd: Json, incidentDate: Json, strptime: DateParser) returns (c: Check)
    ensures c == DateCheck(policyStart, policyEnd, incidentDate, strptime)
  {
    if Truthy(policyStart) && Truthy(policyEnd) && Truthy(incidentDate) {
      var start := ParseDate(policyStart, strptime);
      var end := ParseDate(policyEnd, strptime);
      var incident := ParseDate(incidentDate, strptime);
      c := DateVerdict(policyStart, policyEnd, incidentDate, start, end, incident);
      assert DateCheck(policyStart, policyEnd, incidentDate, strptime) == c;
    } else {
      c := MissingDates;
      assert DateCheck(policyStart, policyEnd, incidentDate, strptime) == c;
    }
  }

  /** Rule 5 (stream_invoice_clean.py:437-473). */
  function DateCheck(policyStart: Json, policyEnd: Json, incidentDate: Json, strptime: DateParser): (c: Check)
    ensures c.rule == IncidentDateWithinPeriod && (c.status == Fail ==> c.severity == Error)
    ensures !(Truthy(policyStart) && Truthy(policyEnd) && Truthy(incidentDate)) ==> c.status == Warning
  {
    if Truthy(policyStart) && Truthy(policyEnd) && Truthy(incidentDate) then
      DateVerdict(policyStart, policyEnd, incidentDate,
                  ParsedDate(policyStart, strptime),
                  ParsedDate(policyEnd, strptime),
                  ParsedDate(incidentDate, strptime))
    else MissingDates
  }

  // ----- rule 6: claim amount -----

  /** The claim amount is hard-coded (stream_invoice_clean.py:477-481). */
  const ClaimAmount: int := 45640
  const MinClaimAmount: int := 0
  const MaxClaimAmount: int := 1000000
  /** `str(float(45640))`. */
  const ClaimAmountText: string := "45640.0"

  /** Rule 6 (stream_invoice_clean.py:483-497); `float()` of an int cannot raise. */
  function ClaimAmountCheck(): (c: Check)
    ensures c.rule == ClaimAmountWithinRange
  {
    var range := "(" + IntToString(MinClaimAmount) + " to " + IntToString(MaxClaimAmount) + ")";
    if ClaimAmount != 0 then
      if MinClaimAmount <= ClaimAmount <= MaxClaimAmount then
        Check(ClaimAmountWithinRange, Pass,
              "Claim amount (" + ClaimAmountText + ") is within acceptable range " + range, Error)
      else
        Check(ClaimAmountWithinRange, Warning,
              "Claim amount (" + ClaimAmountText + ") is outside typical range " + range, Warn)
    else
      Check(ClaimAmountWithinRange, Warning, "Claim amount missing", Warn)
  }

  // ----- the engine -----

  /** The checks in the order the rules add them: rule 1, rule 2, the optional make and
      model checks, rules 4, 5 and 6. */
  function Assemble(first: Check, registration: Check, make: seq<Check>, model: seq<Check>,
                    names: Check, dates: Check, last: Check): (cs: seq<Check>)
    ensures forall c :: c in cs <==>
      c == first || c == registration || c in make || c in model || c == names || c == dates || c == last
  {
    [first] + [registration] + make + model + [names] + [dates] + [last]
  }

  function RuleChecks(f: Fields, strptime: DateParser): seq<Check> {
    Assemble(
      PolicyNumberCheck(PolicyNumber, PolicyNumber),
      RegistrationCheck(f.regPolicy, f.regClaim),
      MakeCheck(f.makePolicy, f.makeClaim),
      ModelCheck(f.modelPolicy, f.modelClaim),
      NameCheck(f.holderName, f.claimantName),
      DateCheck(f.policyStart, f.policyEnd, f.incidentDate, strptime),
      ClaimAmountCheck())
  }

  /** What `validate_documents(policy_json, claim_json)` returns, or the exception it raises. */
  function Validate(policy: Json, claim: Json, strptime: DateParser): Result<Report, Failure> {
    match Lookups(policy, claim)
    case Err(e) => Err(e)
    case Ok(f) => Ok(Summary(RuleChecks(f, strptime)))
  }

  /** `validate_documents` (stream_invoice_clean.py:329-499). */
  method ValidateDocuments(policy: Json, claim: Json, strptime: DateParser) returns (r: Result<Report, Failure>)
    ensures r == Validate(policy, claim, strptime)
  {
    var results := PolicyNumberRule();
    match Lookups(policy, claim)
    case Err(e) =>
      return Err(e);
    case Ok(f) =>
      FieldRules(results, f, strptime);
      return Ok(results.Snapshot());
  }

  /** A fresh `validation_results` and rule 1 (stream_invoice_clean.py:332-373). */
  method PolicyNumberRule() returns (results: Results)
    ensures fresh(results) && results.Valid()
    ensures results.checks == [PolicyNumberCheck(PolicyNumber, PolicyNumber)]
  {
    results := new Results();
    var number := PolicyNumberCheck(PolicyNumber, PolicyNumber);
    results.AddCheck(number.rule, number.status, number.message, number.severity);
  }

  /** Rules 2 to 6 (stream_invoice_clean.py:375-497), after the policy-number check. */
  method FieldRules(results: Results, f: Fields, strptime: DateParser)
    requires results.Valid() && results.checks == [PolicyNumberCheck(PolicyNumber, PolicyNumber)]
    modifies results
    ensures results.Valid() && results.checks == RuleChecks(f, strptime)
  {
    VehicleRules(results, f);
    PartyRules(results, f, strptime);
  }

  /** Rules 2 and 3 (stream_invoice_clean.py:375-413). */
  method VehicleRules(results: Results, f: Fields)
    requires results.Valid()
    modifies results
    ensures results.Valid()
    ensures results.checks == old(results.checks) + [RegistrationCheck(f.regPolicy, f.regClaim)]
                              + MakeCheck(f.makePolicy, f.makeClaim) + ModelCheck(f.modelPolicy, f.modelClaim)
  {
    ghost var before := results.checks;
    var registration := RegistrationCheck(f.regPolicy, f.regClaim);
    results.AddCheck(registration.rule, registration.status, registration.message, registration.severity);
    var make := MakeCheck(f.makePolicy, f.makeClaim);
    AddOptional(results, make);
    var model := ModelCheck(f.modelPolicy, f.modelClaim);
    AddOptional(results, model);
    assert results.checks == before + [registration] + make + model;
  }

  /** A conditional `add_check`: the one check of `cs`, if there is one. */
  method AddOptional(results: Results, cs: seq<Check>)
    requires results.Valid() && |cs| <= 1
    modifies results
    ensures results.Valid() && results.checks == old(results.checks) + cs
  {
    if cs != [] {
      results.AddCheck(cs[0].rule, cs[0].status, cs[0].message, cs[0].severity);
      assert cs == [cs[0]];
    } else {
      assert old(results.checks) + cs == old(results.checks);
    }
  }

  /** Rules 4, 5 and 6 (stream_invoice_clean.py:415-497). */
  method PartyRules(results: Results, f: Fields, strptime: DateParser)
    requires results.Valid()
    modifies results
    ensures results.Valid()
    ensures results.checks == old(results.checks) + [NameCheck(f.holderName, f.claimantName)]
                              + [DateCheck(f.policyStart, f.policyEnd, f.incidentDate, strptime)] + [ClaimAmountCheck()]
  {
    var names := NameCheck(f.holderName, f.claimantName);
    results.AddCheck(names.rule, names.status, names.message, names.severity);
    var dates := DateRule(f.policyStart, f.policyEnd, f.incidentDate, strptime);
    results.AddCheck(dates.rule, dates.status, dates.message, dates.severity);
    var amount := ClaimAmountCheck();
    results.AddCheck(amount.rule, amount.status, amount.message, amount.severity);
  }

  // ----- properties of the engine -----

  /** The hard-coded policy numbers are equal and non-zero, so rule 1 always passes. */
  lemma PolicyNumberPasses()
    ensures PolicyNumberCheck(PolicyNumber, PolicyNumber).status == Pass
  {
  }

  /** The hard-coded claim amount lies in its range, so rule 6 always passes. */
  lemma ClaimAmountPasses()
    ensures ClaimAmountCheck().status == Pass
  {
  }

  /** The rules' checks put together keep their FAILs at the default severity. */
  lemma AssembleKeepsFailsErrors(first: Check, registration: Check, make: seq<Check>, model: seq<Check>,
                                 names: Check, dates: Check, last: Check)
    requires first.status != Fail && names.status != Fail && last.status != Fail
    requires registration.status == Fail ==> registration.severity == Error
    requires dates.status == Fail ==> dates.severity == Error
    requires FailsAreErrorsIn(make) && forall c :: c in model ==> c.status != Fail
    ensures FailsAreErrorsIn(Assemble(first, registration, make, model, names, dates, last))
  {
  }

  /** Every FAIL the rules produce has the default "error" severity. */
  lemma FailsAreErrors(f: Fields, strptime: DateParser)
    ensures FailsAreErrorsIn(RuleChecks(f, strptime))
  {
    ClaimAmountPasses();
    PolicyNumberPasses();
    AssembleKeepsFailsErrors(
      PolicyNumberCheck(PolicyNumber, PolicyNumber),
      RegistrationCheck(f.regPolicy, f.regClaim),
      MakeCheck(f.makePolicy, f.makeClaim),
      ModelCheck(f.modelPolicy, f.modelClaim),
      NameCheck(f.holderName, f.claimantName),
      DateCheck(f.policyStart, f.policyEnd, f.incidentDate, strptime),
      ClaimAmountCheck());
  }

  /** With at most one make and one model check there are 5 to 7 checks, the first and
      the last in place. */
  lemma AssembleShape(first: Check, registration: Check, make: seq<Check>, model: seq<Check>,
                      names: Check, dates: Check, last: Check)
    requires |make| <= 1 && |model| <= 1
    ensures var cs := Assemble(first, registration, make, model, names, dates, last);
      5 <= |cs| <= 7 && cs[0] == first && cs[|cs| - 1] == last
  {
  }

  /** A report is returned exactly when the policy, the claim, `insured_vehicle`,
      `vehicle_details` and `policy_period` are dicts (a missing sub-dict counts as `{}`).
      The report then counts every check once, its status is FAIL exactly when a check
      failed, the first check is the passing policy-number check and the last the passing
      claim-amount check, and there are 5 to 7 checks. */
  lemma ValidateReport(policy: Json, claim: Json, strptime: DateParser)
    ensures Validate(policy, claim, strptime).Ok? <==> Lookups(policy, claim).Ok?
    ensures var r := Validate(policy, claim, strptime);
      r.Ok? ==>
        var rep := r.value;
        rep.totalChecks == rep.passedChecks + rep.failedChecks + rep.warnings == |rep.checks|
        && (rep.overallStatus == Fail <==> rep.failedChecks > 0)
        && (rep.overallStatus == Pass <==> rep.failedChecks == 0)
        && 5 <= rep.totalChecks <= 7
        && rep.checks[0].rule == PolicyNumberMatch && rep.checks[0].status == Pass
        && rep.checks[|rep.checks| - 1].rule == ClaimAmountWithinRange
        && rep.checks[|rep.checks| - 1].status == Pass
  {
    var r := Validate(policy, claim, strptime);
    if r.Ok? {
      var f := Lookups(policy, claim).value;
      var cs := RuleChecks(f, strptime);
      assert r.value == Summary(cs);
      FailsAreErrors(f, strptime);
      CountsAddUp(cs);
      OverallFailIff(cs);
      AssembleShape(
        PolicyNumberCheck(PolicyNumber, PolicyNumber),
        RegistrationCheck(f.regPolicy, f.regClaim),
        MakeCheck(f.makePolicy, f.makeClaim),
        ModelCheck(f.modelPolicy, f.modelClaim),
        NameCheck(f.holderName, f.claimantName),
        DateCheck(f.policyStart, f.policyEnd, f.incidentDate, strptime),
        ClaimAmountCheck());
      PolicyNumberPasses();
      ClaimAmountPasses();
    }
  }

  /** A model mismatch is never a failure. */
  lemma ModelNeverFails(f: Fields, strptime: DateParser)
    ensures forall c :: c in RuleChecks(f, strptime) && c.rule == VehicleModelMatch ==> c.status != Fail
  {
  }
}

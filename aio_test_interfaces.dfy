/**
 * The interface generator of the `netcam_aio_devices` testing services whose
 * measurement is mapped by a validator: the four status keys are taken
 * positionally and then converted. Failures carry the whole measurement and
 * name the field only in their message; an interface expected in use always
 * ends with a Pass, even after failures.
 */
module AioTestInterfaces {
  import opened Wrappers
  import opened Results
  import opened EosPayloads
  import opened Design

  datatype Measure =
    | NoValue
    | State(state: IfState)                      // the measurement object
    | Message(about: string, state: IfState)     // a failure: the measurement, and the field its message names

  type R = Result<Measure>

  /** Some failure's message names `field`. */
  predicate ReportsOn(rs: seq<R>, field: string) {
    exists i :: 0 <= i < |rs| && IsFail(rs[i]) && rs[i].measurement.Message? && rs[i].measurement.about == field
  }

  lemma ReportsOnAppend(a: seq<R>, b: seq<R>, field: string)
    ensures ReportsOn(a + b, field) <==> ReportsOn(a, field) || ReportsOn(b, field)
  {
    if ReportsOn(a + b, field) {
      var i :| 0 <= i < |a + b| && IsFail((a + b)[i]) && (a + b)[i].measurement.Message? && (a + b)[i].measurement.about == field;
      if i >= |a| { assert (a + b)[i] == b[i - |a|]; }
    }
    if ReportsOn(a, field) {
      var i :| 0 <= i < |a| && IsFail(a[i]) && a[i].measurement.Message? && a[i].measurement.about == field;
      assert (a + b)[i] == a[i];
    }
    if ReportsOn(b, field) {
      var i :| 0 <= i < |b| && IsFail(b[i]) && b[i].measurement.Message? && b[i].measurement.about == field;
      assert (a + b)[|a| + i] == b[i];
    }
  }

  /**
   * `EosInterfaceMeasurement.from_cli` followed by its validator: linkStatus,
   * lineProtocolStatus, description and bandwidth fill used, oper_up, desc and
   * speed in that order and are then converted.
   */
  function FromCli(s: IfStatus): (m: IfState)
    requires SpeedPositive(s)
    ensures m.used <==> s.linkStatus != "disabled"
    ensures m.operUp <==> s.lineProtocolStatus == "up"
    ensures m.desc == s.description
    ensures m.speed * BitsPerMbps == s.bandwidth && m.speed >= 1
  {
    IfState(s.linkStatus != "disabled", s.lineProtocolStatus == "up", s.description, s.bandwidth / BitsPerMbps)
  }

  /** The failures the field loop yields after visiting `fields`. */
  function FieldFailures(c: InterfaceCheck, m: IfState, fields: seq<string>): seq<R>
    requires AreFields(fields)
  {
    if fields == [] then []
    else
      var f := fields[|fields| - 1];
      FieldFailures(c, m, fields[..|fields| - 1])
        + (if DiffersOn(c.expected, m, f) then [Failed(Check(c.name), "", Message(f, m))] else [])
  }

  /** The field loop yields only failures, and one naming `field` exactly when that field differs. */
  lemma {:induction false} FieldFailuresFacts(c: InterfaceCheck, m: IfState, fields: seq<string>, field: string)
    requires AreFields(fields)
    ensures AllFail(FieldFailures(c, m, fields))
    ensures ReportsOn(FieldFailures(c, m, fields), field) <==>
              field in InterfaceFields && field in fields && DiffersOn(c.expected, m, field)
  {
    if fields != [] {
      var f := fields[|fields| - 1];
      var init := fields[..|fields| - 1];
      FieldFailuresFacts(c, m, init, field);
      var tail := if DiffersOn(c.expected, m, f) then [Failed(Check(c.name), "", Message(f, m))] else [];
      ReportsOnAppend(FieldFailures(c, m, init), tail, field);
      AllFailAppend(FieldFailures(c, m, init), tail);
      assert fields == init + [f];
      assert field in fields <==> field in init || field == f;
      assert f in InterfaceFields;
      if tail != [] { assert ReportsOn(tail, field) <==> field == f by { assert tail[0].measurement.about == f; } }
    }
  }

  /** `eos_test_one_interface` */
  function OneInterface(c: InterfaceCheck, status: Option<IfStatus>): seq<R>
    requires status.Some? ==> SpeedPositive(status.value)
  {
    match status
    case None => [Failed(Check(c.name), "", NoValue)]
    case Some(s) =>
      var m := FromCli(s);
      var usedFail := if c.expected.used != m.used then [Failed(Check(c.name), "", Message("used", m))] else [];
      if !c.expected.used then usedFail
      else usedFail + FieldFailures(c, m, InterfaceFields) + [Passed(Check(c.name), "", State(m))]
  }

  /** `eos_test_one_interface`, with its field loop. */
  method TestOneInterface(c: InterfaceCheck, status: Option<IfStatus>) returns (results: seq<R>)
    requires status.Some? ==> SpeedPositive(status.value)
    ensures results == OneInterface(c, status)
  {
    if status.None? {
      return [Failed(Check(c.name), "", NoValue)];
    }
    var m := FromCli(status.value);
    results := [];
    if c.expected.used != m.used {
      results := results + [Failed(Check(c.name), "", Message("used", m))];
    }
    if !c.expected.used {
      return;
    }
    var usedFail := results;
    for i := 0 to |InterfaceFields|
      invariant results == usedFail + FieldFailures(c, m, InterfaceFields[..i])
    {
      var field := InterfaceFields[i];
      assert InterfaceFields[..i + 1][..i] == InterfaceFields[..i];
      if FieldOf(c.expected, field) != FieldOf(m, field) {
        results := results + [Failed(Check(c.name), "", Message(field, m))];
      }
    }
    assert InterfaceFields[..|InterfaceFields|] == InterfaceFields;
    results := results + [Passed(Check(c.name), "", State(m))];
  }

  /** A missing interface yields exactly one failure, with no measurement. */
  lemma MissingRule(c: InterfaceCheck)
    ensures var rs := OneInterface(c, None);
            |rs| == 1 && rs[0].status == Fail && rs[0].measurement == NoValue
  {
  }

  /**
   * `used` is compared first; an interface expected unused yields at most that
   * one failure and no Pass. For one expected in use, each of oper_up, desc and
   * speed is reported exactly when the values differ, and the list ends with
   * its one Pass, whatever failed before it.
   */
  lemma PresentRules(c: InterfaceCheck, s: IfStatus, field: string)
    requires SpeedPositive(s) && field in InterfaceFields
    ensures var rs := OneInterface(c, Some(s));
            var m := FromCli(s);
            && (ReportsOn(rs, "used") <==> c.expected.used != m.used)
            && (!c.expected.used ==> |rs| <= 1 && !AnyPass(rs))
            && (c.expected.used ==> (ReportsOn(rs, field) <==> DiffersOn(c.expected, m, field)))
            && (c.expected.used ==> rs[|rs| - 1].status == Pass && PassCount(rs) == 1)
  {
    var m := FromCli(s);
    var rs := OneInterface(c, Some(s));
    var usedFail: seq<R> := if c.expected.used != m.used then [Failed(Check(c.name), "", Message("used", m))] else [];
    assert AllFail(usedFail);
    AllFailFacts(usedFail);
    assert ReportsOn(usedFail, "used") <==> usedFail != [] by { if usedFail != [] { assert usedFail[0].measurement.about == "used"; } }
    assert !ReportsOn(usedFail, field) by { if usedFail != [] { assert usedFail[0].measurement.about == "used"; } }
    if c.expected.used {
      var ff := FieldFailures(c, m, InterfaceFields);
      FieldFailuresFacts(c, m, InterfaceFields, field);
      FieldFailuresFacts(c, m, InterfaceFields, "used");
      var pass: seq<R> := [Passed(Check(c.name), "", State(m))];
      assert !ReportsOn(pass, "used") && !ReportsOn(pass, field) by { assert !IsFail(pass[0]); }
      ReportsOnAppend(usedFail, ff, "used");
      ReportsOnAppend(usedFail + ff, pass, "used");
      ReportsOnAppend(usedFail, ff, field);
      ReportsOnAppend(usedFail + ff, pass, field);
      AllFailAppend(usedFail, ff);
      AllFailFacts(usedFail + ff);
      assert rs == usedFail + ff + pass;
      PassCountOfFailures(usedFail + ff);
      PassCountAppendPass(usedFail + ff, pass[0]);
    }
  }

  lemma {:induction false} PassCountOfFailures(rs: seq<R>)
    requires AllFail(rs)
    ensures PassCount(rs) == 0
  {
    AllFailFacts(rs);
  }

  lemma PassCountAppendPass(rs: seq<R>, pass: R)
    requires IsPass(pass)
    ensures PassCount(rs + [pass]) == PassCount(rs) + 1
  {
    assert (rs + [pass])[..|rs|] == rs;
  }

  /** The results of `tests`, in test order. */
  function Run(tests: seq<InterfaceCheck>, statuses: map<string, IfStatus>): seq<R>
    requires CheckedSpeedsPositive(tests, statuses)
  {
    if tests == [] then []
    else
      var c := tests[|tests| - 1];
      Run(tests[..|tests| - 1], statuses) + OneInterface(c, Get(statuses, c.name))
  }

  lemma RunStep(tests: seq<InterfaceCheck>, i: nat, statuses: map<string, IfStatus>)
    requires CheckedSpeedsPositive(tests, statuses) && i < |tests|
    ensures CheckedSpeedsPositive(tests[..i], statuses)
    ensures Run(tests[..i + 1], statuses) == Run(tests[..i], statuses) + OneInterface(tests[i], Get(statuses, tests[i].name))
  {
    assert tests[..i + 1][..i] == tests[..i];
  }

  /** `eos_testcases_interfaces` */
  method TestInterfaces(tests: seq<InterfaceCheck>, statuses: map<string, IfStatus>) returns (results: seq<R>)
    requires CheckedSpeedsPositive(tests, statuses)
    ensures results == Run(tests, statuses)
  {
    results := [];
    for i := 0 to |tests|
      invariant results == Run(tests[..i], statuses)
    {
      RunStep(tests, i, statuses);
      var one := TestOneInterface(tests[i], Get(statuses, tests[i].name));
      results := results + one;
    }
    assert tests[..|tests|] == tests;
  }

  /** Every test whose interface is present and expected in use contributes exactly one Pass. */
  lemma {:induction false} PassesCountUsedTests(tests: seq<InterfaceCheck>, statuses: map<string, IfStatus>)
    requires CheckedSpeedsPositive(tests, statuses)
    requires forall i :: 0 <= i < |tests| ==> tests[i].name in statuses && tests[i].expected.used
    ensures PassCount(Run(tests, statuses)) == |tests|
  {
    if tests != [] {
      var init := tests[..|tests| - 1];
      var c := tests[|tests| - 1];
      PassesCountUsedTests(init, statuses);
      PresentRules(c, statuses[c.name], "oper_up");
      PassCountAppend(Run(init, statuses), OneInterface(c, Get(statuses, c.name)));
    }
  }
}

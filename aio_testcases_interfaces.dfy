/**
 * The interface generator of the `netcam_aio_devices` testing services. Unlike
 * the other older generators it compares every field, with no skipping of
 * falsy expectations; the Pass depends only on the field-loop counter.
 */
module AioTestcasesInterfaces {
  import opened Wrappers
  import opened Results
  import opened EosPayloads
  import opened Design

  datatype Measure =
    | NoValue
    | Flag(b: bool)
    | Field(v: FieldValue)
    | State(state: IfState)    // the measurement object

  type R = Result<Measure>

  /** `EosInterfaceMeasurement.from_cli`; the measurement declares speed a positive integer. */
  function FromCli(s: IfStatus): (m: IfState)
    requires SpeedPositive(s)
    ensures m.used <==> s.linkStatus != "disabled"
    ensures m.operUp <==> s.lineProtocolStatus == "up"
    ensures m.desc == s.description
    ensures m.speed * BitsPerMbps == s.bandwidth && m.speed >= 1
  {
    IfState(s.linkStatus != "disabled", s.lineProtocolStatus == "up", s.description, s.bandwidth / BitsPerMbps)
  }

  /** The failures the field loop yields after visiting `fields`; every field is compared. */
  function FieldFailures(c: InterfaceCheck, m: IfState, fields: seq<string>): seq<R>
    requires AreFields(fields)
  {
    if fields == [] then []
    else
      var f := fields[|fields| - 1];
      FieldFailures(c, m, fields[..|fields| - 1])
        + (if DiffersOn(c.expected, m, f) then [Failed(Check(c.name), f, Field(FieldOf(m, f)))] else [])
  }

  /** The field loop yields only failures, and one on `field` exactly when that field fails. */
  lemma {:induction false} FieldFailuresFacts(c: InterfaceCheck, m: IfState, fields: seq<string>, field: string)
    requires AreFields(fields)
    ensures AllFail(FieldFailures(c, m, fields))
    ensures HasFailOn(FieldFailures(c, m, fields), field) <==>
              field in InterfaceFields && field in fields && DiffersOn(c.expected, m, field)
  {
    if fields != [] {
      var f := fields[|fields| - 1];
      var init := fields[..|fields| - 1];
      FieldFailuresFacts(c, m, init, field);
      var tail := if DiffersOn(c.expected, m, f) then [Failed(Check(c.name), f, Field(FieldOf(m, f)))] else [];
      HasFailOnAppend(FieldFailures(c, m, init), tail, field);
      AllFailAppend(FieldFailures(c, m, init), tail);
      assert fields == init + [f];
      assert field in fields <==> field in init || field == f;
      assert f in InterfaceFields;
      if tail != [] { assert HasFailOn(tail, field) <==> field == f by { assert tail[0].field == f; } }
    }
  }

  /** The field loop yields nothing exactly when no visited field fails. */
  lemma {:induction false} FieldFailuresEmpty(c: InterfaceCheck, m: IfState, fields: seq<string>)
    requires AreFields(fields)
    ensures FieldFailures(c, m, fields) == [] <==> forall j :: 0 <= j < |fields| ==> !DiffersOn(c.expected, m, fields[j])
  {
    if fields != [] {
      var f := fields[|fields| - 1];
      var init := fields[..|fields| - 1];
      FieldFailuresEmpty(c, m, init);
      forall j | 0 <= j < |init| ensures init[j] == fields[j] { }
    }
  }

  /** `eos_test_one_interface` */
  function OneInterface(c: InterfaceCheck, status: Option<IfStatus>): seq<R>
    requires status.Some? ==> SpeedPositive(status.value)
  {
    match status
    case None => [Failed(Check(c.name), c.name, NoValue)]
    case Some(s) =>
      var m := FromCli(s);
      var usedFail := if c.expected.used != m.used then [Failed(Check(c.name), "used", Flag(m.used))] else [];
      if !c.expected.used then usedFail
      else
        var fieldFails := FieldFailures(c, m, InterfaceFields);
        usedFail + fieldFails + (if fieldFails == [] then [Passed(Check(c.name), "", State(m))] else [])
  }

  /** The field loop of `eos_test_one_interface`: the failures it yields and its `failures` counter. */
  method FieldLoop(c: InterfaceCheck, m: IfState) returns (fails: seq<R>, failures: nat)
    ensures fails == FieldFailures(c, m, InterfaceFields)
    ensures failures == |fails|
  {
    fails := [];
    failures := 0;
    for i := 0 to |InterfaceFields|
      invariant fails == FieldFailures(c, m, InterfaceFields[..i])
      invariant failures == |fails|
    {
      var field := InterfaceFields[i];
      assert InterfaceFields[..i + 1][..i] == InterfaceFields[..i];
      var expected := FieldOf(c.expected, field);
      var measured := FieldOf(m, field);
      if expected == measured {
        continue;
      }
      failures := failures + 1;
      fails := fails + [Failed(Check(c.name), field, Field(measured))];
    }
    assert InterfaceFields[..|InterfaceFields|] == InterfaceFields;
  }

  /** `eos_test_one_interface`, with its field loop and failure counter. */
  method TestOneInterface(c: InterfaceCheck, status: Option<IfStatus>) returns (results: seq<R>)
    requires status.Some? ==> SpeedPositive(status.value)
    ensures results == OneInterface(c, status)
  {
    if status.None? {
      return [Failed(Check(c.name), c.name, NoValue)];
    }
    var m := FromCli(status.value);
    results := [];
    if c.expected.used != m.used {
      results := results + [Failed(Check(c.name), "used", Flag(m.used))];
    }
    if !c.expected.used {
      return;
    }
    var fails, failures := FieldLoop(c, m);
    results := results + fails;
    if failures == 0 {
      results := results + [Passed(Check(c.name), "", State(m))];
    }
  }

  /** A missing interface yields exactly one plain failure whose field is the interface name. */
  lemma MissingRule(c: InterfaceCheck)
    ensures var rs := OneInterface(c, None);
            |rs| == 1 && rs[0].status == Fail && rs[0].kind == Plain && rs[0].field == c.name
  {
  }

  /**
   * `used` is compared first; an interface expected unused yields at most
   * that one failure and never a Pass. For one expected in use, each of
   * oper_up, desc and speed fails exactly when the values differ, and a Pass is yielded exactly when none of those three
   * failed, whatever the `used` comparison gave.
   */
  lemma PresentRules(c: InterfaceCheck, s: IfStatus, field: string)
    requires SpeedPositive(s) && field in InterfaceFields
    ensures var rs := OneInterface(c, Some(s));
            var m := FromCli(s);
            && (HasFailOn(rs, "used") <==> c.expected.used != m.used)
            && (!c.expected.used ==> |rs| <= 1 && !AnyPass(rs))
            && (c.expected.used ==> (HasFailOn(rs, field) <==> DiffersOn(c.expected, m, field)))
            && (c.expected.used ==> (AnyPass(rs) <==> forall f :: f in InterfaceFields ==> !DiffersOn(c.expected, m, f)))
  {
    if c.expected.used {
      InUseFieldRules(c, s, field);
      InUsePassRule(c, s);
    } else {
      var m := FromCli(s);
      var rs := OneInterface(c, Some(s));
      var usedFail: seq<R> := if c.expected.used != m.used then [Failed(Check(c.name), "used", Flag(m.used))] else [];
      assert AllFail(usedFail);
      AllFailFacts(usedFail);
      assert HasFailOn(usedFail, "used") <==> usedFail != [] by { if usedFail != [] { assert usedFail[0].field == "used"; } }
      assert !HasFailOn(usedFail, field) by { if usedFail != [] { assert usedFail[0].field == "used"; } }
      assert rs == usedFail;
    }
  }

  /** For an interface expected in use, the `used` field and each other field fail on their own comparison. */
  lemma InUseFieldRules(c: InterfaceCheck, s: IfStatus, field: string)
    requires SpeedPositive(s) && field in InterfaceFields && c.expected.used
    ensures var rs := OneInterface(c, Some(s));
            var m := FromCli(s);
            && (HasFailOn(rs, "used") <==> c.expected.used != m.used)
            && (HasFailOn(rs, field) <==> DiffersOn(c.expected, m, field))
  {
    var m := FromCli(s);
    var rs := OneInterface(c, Some(s));
    var usedFail: seq<R> := if c.expected.used != m.used then [Failed(Check(c.name), "used", Flag(m.used))] else [];
    assert HasFailOn(usedFail, "used") <==> usedFail != [] by { if usedFail != [] { assert usedFail[0].field == "used"; } }
    assert !HasFailOn(usedFail, field) by { if usedFail != [] { assert usedFail[0].field == "used"; } }
    var ff := FieldFailures(c, m, InterfaceFields);
    FieldFailuresFacts(c, m, InterfaceFields, field);
    FieldFailuresFacts(c, m, InterfaceFields, "used");
    var pass: seq<R> := if ff == [] then [Passed(Check(c.name), "", State(m))] else [];
    assert !HasFailOn(pass, "used") && !HasFailOn(pass, field) by { if pass != [] { assert !IsFail(pass[0]); } }
    HasFailOnAppend(usedFail, ff, "used");
    HasFailOnAppend(usedFail + ff, pass, "used");
    HasFailOnAppend(usedFail, ff, field);
    HasFailOnAppend(usedFail + ff, pass, field);
    assert rs == usedFail + ff + pass;
  }

  /** For an interface expected in use, the Pass comes exactly when no field other than `used` fails. */
  lemma InUsePassRule(c: InterfaceCheck, s: IfStatus)
    requires SpeedPositive(s) && c.expected.used
    ensures var rs := OneInterface(c, Some(s));
            var m := FromCli(s);
            (AnyPass(rs) <==> forall f :: f in InterfaceFields ==> !DiffersOn(c.expected, m, f))
  {
    var m := FromCli(s);
    var rs := OneInterface(c, Some(s));
    var usedFail: seq<R> := if c.expected.used != m.used then [Failed(Check(c.name), "used", Flag(m.used))] else [];
    assert AllFail(usedFail);
    AllFailFacts(usedFail);
    var ff := FieldFailures(c, m, InterfaceFields);
    FieldFailuresEmpty(c, m, InterfaceFields);
    FieldFailuresFacts(c, m, InterfaceFields, "used");
    AllFailFacts(ff);
    var pass: seq<R> := if ff == [] then [Passed(Check(c.name), "", State(m))] else [];
    assert AnyPass(pass) <==> ff == [] by { if pass != [] { assert IsPass(pass[0]); } }
    AllFailAppend(usedFail, ff);
    AllFailFacts(usedFail + ff);
    AnyPassAppend(usedFail + ff, pass);
    assert rs == usedFail + ff + pass;
    assert (forall j :: 0 <= j < |InterfaceFields| ==> !DiffersOn(c.expected, m, InterfaceFields[j]))
       <==> (forall f :: f in InterfaceFields ==> !DiffersOn(c.expected, m, f));
  }

  /** A Pass follows a failed `used` comparison when the other three fields agree. */
  lemma PassAfterUsedFailure(c: InterfaceCheck, s: IfStatus)
    requires SpeedPositive(s)
    requires c.expected.used && s.linkStatus == "disabled"
    requires forall f :: f in InterfaceFields ==> !DiffersOn(c.expected, FromCli(s), f)
    ensures var rs := OneInterface(c, Some(s)); HasFailOn(rs, "used") && AnyPass(rs)
  {
    PresentRules(c, s, "oper_up");
  }

  /** The results of `tests`, in test order. */
  function Run(tests: seq<InterfaceCheck>, statuses: map<string, IfStatus>): seq<R>
    requires CheckedSpeedsPositive(tests, statuses)
  {
    if tests == [] then []
    else
      var c := tests[|tests| - 1];
      Run(tests[..|tests| - 1], statuses) + OneInterface(c, Get(statuses, c.name))
  }

  lemma RunStep(tests: seq<InterfaceCheck>, i: nat, statuses: map<string, IfStatus>)
    requires CheckedSpeedsPositive(tests, statuses) && i < |tests|
    ensures CheckedSpeedsPositive(tests[..i], statuses)
    ensures Run(tests[..i + 1], statuses) == Run(tests[..i], statuses) + OneInterface(tests[i], Get(statuses, tests[i].name))
  {
    assert tests[..i + 1][..i] == tests[..i];
  }

  /** `eos_testcases_interfaces` */
  method TestInterfaces(tests: seq<InterfaceCheck>, statuses: map<string, IfStatus>) returns (results: seq<R>)
    requires CheckedSpeedsPositive(tests, statuses)
    ensures results == Run(tests, statuses)
  {
    results := [];
    for i := 0 to |tests|
      invariant results == Run(tests[..i], statuses)
    {
      RunStep(tests, i, statuses);
      var one := TestOneInterface(tests[i], Get(statuses, tests[i].name));
      results := results + one;
    }
    assert tests[..|tests|] == tests;
  }

  /** Every test with a missing interface contributes exactly its one plain failure to the stream. */
  lemma {:induction false} MissingCount(tests: seq<InterfaceCheck>, statuses: map<string, IfStatus>)
    requires CheckedSpeedsPositive(tests, statuses)
    requires forall i :: 0 <= i < |tests| ==> tests[i].name !in statuses
    ensures |Run(tests, statuses)| == |tests|
    ensures AllFail(Run(tests, statuses))
  {
    if tests != [] {
      var init := tests[..|tests| - 1];
      MissingCount(init, statuses);
      AllFailAppend(Run(init, statuses), OneInterface(tests[|tests| - 1], None));
    }
  }
}

/**
 * The IP-address generator of the `netcam_test_aiodevices` generation. While
 * walking the tests it yields a NoExists failure for each interface the device
 * lacks and defers the per-interface generators of the others; the exclusive
 * list is always deferred last. The deferred generators are drained in order
 * after the walk, so every NoExists result comes before any other result.
 */
module TestAioIpAddrs {
  import opened Strings
  import opened Results
  import opened EosPayloads
  import opened Design

  datatype Measure =
    | NoValue
    | Text(s: string)
    | Record(record: IpIfBrief)
    | Members(expected: set<string>, extras: set<string>)

  type R = Result<Measure>

  /** `eos_test_one_interface`: the two comparisons are counted and the Pass needs both to hold. */
  function OneInterface(c: IpCheck, rec: IpIfBrief): seq<R> {
    match MeasuredAddress(rec)
    case None => [Mismatch(Check(c.name), "measurement", Record(rec))]
    case Some(addr) =>
      var addrFail := if addr != c.ifIpaddr then [Mismatch(Check(c.name), "if_ipaddr", Text(addr))] else [];
      var operFail := if rec.lineProtocolStatus != "up" then [Mismatch(Check(c.name), "if_oper", Text(rec.lineProtocolStatus))] else [];
      if |addrFail| + |operFail| != 0 then addrFail + operFail
      else [Passed(Check(c.name), "", Record(rec))]
  }

  /**
   * With a readable address, "if_ipaddr" fails exactly when the rendered
   * address differs from the design's, "if_oper" fails exactly when the line
   * protocol is not up, and the one Pass comes exactly when neither failed.
   */
  lemma OneInterfaceRules(c: IpCheck, rec: IpIfBrief)
    requires MeasuredAddress(rec).Some?
    ensures var rs := OneInterface(c, rec);
            && (HasFailOn(rs, "if_ipaddr") <==> MeasuredAddress(rec).value != c.ifIpaddr)
            && (HasFailOn(rs, "if_oper") <==> rec.lineProtocolStatus != "up")
            && (AnyPass(rs) <==> !AnyFailures(rs))
            && (AnyPass(rs) ==> rs == [Passed(Check(c.name), "", Record(rec))])
            && !HasKind(rs, NoExists)
  {
    var rs := OneInterface(c, rec);
    var addr := MeasuredAddress(rec).value;
    var af: seq<R> := if addr != c.ifIpaddr then [Mismatch(Check(c.name), "if_ipaddr", Text(addr))] else [];
    var of: seq<R> := if rec.lineProtocolStatus != "up" then [Mismatch(Check(c.name), "if_oper", Text(rec.lineProtocolStatus))] else [];
    assert HasFailOn(af, "if_ipaddr") <==> af != [] by { if af != [] { assert af[0].field == "if_ipaddr"; } }
    assert !HasFailOn(af, "if_oper") by { if af != [] { assert af[0].field == "if_ipaddr"; } }
    assert HasFailOn(of, "if_oper") <==> of != [] by { if of != [] { assert of[0].field == "if_oper"; } }
    assert !HasFailOn(of, "if_ipaddr") by { if of != [] { assert of[0].field == "if_oper"; } }
    if |af| + |of| != 0 {
      assert rs == af + of;
      HasFailOnAppend(af, of, "if_ipaddr");
      HasFailOnAppend(af, of, "if_oper");
      assert AllFail(rs) by { forall i | 0 <= i < |rs| ensures IsFail(rs[i]) && rs[i].kind == FieldMismatch { } }
      AllFailFacts(rs);
      assert !HasKind(rs, NoExists) by { forall i | 0 <= i < |rs| ensures rs[i].kind == FieldMismatch { } }
    } else {
      assert rs == [Passed(Check(c.name), "", Record(rec))];
      assert IsPass(rs[0]);
    }
  }

  /**
   * This generation has no "is_reserved" escape: a rendered address always
   * holds a '/', so an interface whose design address is "is_reserved" always
   * fails "if_ipaddr".
   */
  lemma ReservedAlwaysFails(c: IpCheck, rec: IpIfBrief)
    requires MeasuredAddress(rec).Some? && c.ifIpaddr == "is_reserved"
    ensures HasFailOn(OneInterface(c, rec), "if_ipaddr")
  {
    var a := rec.ipAddr.value.address.value;
    var s := MeasuredAddress(rec).value;
    assert s[|a|] == (a + "/")[|a|] == '/';
    assert forall k :: 0 <= k < |"is_reserved"| ==> "is_reserved"[k] != '/';
    assert s != c.ifIpaddr;
    OneInterfaceRules(c, rec);
  }

  /** The NoExists failures yielded while walking `tests`, in test order. */
  function Missing(tests: seq<IpCheck>, ips: map<string, IpIfBrief>): seq<R> {
    if tests == [] then []
    else
      var c := tests[|tests| - 1];
      Missing(tests[..|tests| - 1], ips) + (if c.name in ips then [] else [Absent(Check(c.name), "", NoValue)])
  }

  /** The deferred per-interface generators, as the test and the record each one closes over. */
  function Pending(tests: seq<IpCheck>, ips: map<string, IpIfBrief>): seq<(IpCheck, IpIfBrief)> {
    if tests == [] then []
    else
      var c := tests[|tests| - 1];
      Pending(tests[..|tests| - 1], ips) + (if c.name in ips then [(c, ips[c.name])] else [])
  }

  /** Draining the deferred generators in order. */
  function Drain(pending: seq<(IpCheck, IpIfBrief)>): seq<R> {
    if pending == [] then []
    else Drain(pending[..|pending| - 1]) + OneInterface(pending[|pending| - 1].0, pending[|pending| - 1].1)
  }

  lemma MissingStep(tests: seq<IpCheck>, i: nat, ips: map<string, IpIfBrief>)
    requires i < |tests|
    ensures Missing(tests[..i + 1], ips) ==
              Missing(tests[..i], ips) + (if tests[i].name in ips then [] else [Absent(Check(tests[i].name), "", NoValue)])
    ensures Pending(tests[..i + 1], ips) == Pending(tests[..i], ips) + (if tests[i].name in ips then [(tests[i], ips[tests[i].name])] else [])
  {
    assert tests[..i + 1][..i] == tests[..i];
  }

  /** Every test is either missing or deferred. */
  lemma {:induction false} MissingOrPending(tests: seq<IpCheck>, ips: map<string, IpIfBrief>)
    ensures |Missing(tests, ips)| + |Pending(tests, ips)| == |tests|
    ensures forall k :: 0 <= k < |Pending(tests, ips)| ==>
              Pending(tests, ips)[k].0.name in ips && Pending(tests, ips)[k].1 == ips[Pending(tests, ips)[k].0.name]
    ensures forall k :: 0 <= k < |Missing(tests, ips)| ==>
              Missing(tests, ips)[k].kind == NoExists && Missing(tests, ips)[k].check.Check? && Missing(tests, ips)[k].check.id !in ips
  {
    if tests != [] {
      MissingOrPending(tests[..|tests| - 1], ips);
    }
  }

  /** A drained generator never yields NoExists. */
  lemma {:induction false} DrainHasNoNoExists(pending: seq<(IpCheck, IpIfBrief)>)
    ensures forall k :: 0 <= k < |Drain(pending)| ==> Drain(pending)[k].kind != NoExists
  {
    if pending != [] {
      var p := pending[|pending| - 1];
      DrainHasNoNoExists(pending[..|pending| - 1]);
      if MeasuredAddress(p.1).Some? {
        OneInterfaceRules(p.0, p.1);
      }
      var one := OneInterface(p.0, p.1);
      assert forall k :: 0 <= k < |one| ==> one[k].kind != NoExists;
    }
  }

  /** Every device entry carries a mask length: the exclusive list reads it without a default. */
  predicate MaskLensKnown(ips: map<string, IpIfBrief>) {
    forall k :: k in ips ==> ips[k].ipAddr.Some? && ips[k].ipAddr.value.maskLen.Some?
  }

  function AddressedNames(ips: map<string, IpIfBrief>): (names: set<string>)
    requires MaskLensKnown(ips)
    ensures forall k :: k in ips && ips[k].ipAddr.value.maskLen.value != 0 ==> ips[k].name in names
    ensures forall n :: n in names ==> exists k :: k in ips && ips[k].ipAddr.value.maskLen.value != 0 && ips[k].name == n
  {
    set k | k in ips && ips[k].ipAddr.value.maskLen.value != 0 :: ips[k].name
  }

  function IpCheckNames(tests: seq<IpCheck>): set<string> {
    set i | 0 <= i < |tests| :: tests[i].name
  }

  /** `eos_test_exclusive_list`: extras fail, and otherwise the exclusive test passes. */
  function ExclusiveList(expd: set<string>, msrd: set<string>): (rs: seq<R>)
    ensures |rs| == 1 && rs[0].check == ExclusiveListCheck && rs[0].kind != NoExists
    ensures rs[0].kind == ExtraMembers <==> msrd - expd != {}
    ensures rs[0].status == Pass <==> msrd <= expd
    ensures rs[0].kind == ExtraMembers ==> rs[0].measurement == Members(expd, msrd - expd)
  {
    if msrd - expd != {} then [ExtraOf(ExclusiveListCheck, "ip-interfaces", Members(expd, msrd - expd))]
    else
      assert msrd <= expd by { forall n | n in msrd ensures n in expd { assert n !in msrd - expd; } }
      [Passed(ExclusiveListCheck, "", NoValue)]
  }

  /** The `if_names` list the walk collects, as the set the exclusive list compares against. */
  lemma NamesCollected(ifNames: seq<string>, tests: seq<IpCheck>)
    requires |ifNames| == |tests| && forall j :: 0 <= j < |tests| ==> ifNames[j] == tests[j].name
    ensures (set n | n in ifNames) == IpCheckNames(tests)
  {
    forall n | n in IpCheckNames(tests) ensures n in ifNames { var j :| 0 <= j < |tests| && tests[j].name == n; assert ifNames[j] == n; }
  }

  /** The final `chain.from_iterable` over the deferred generators. */
  method DrainPending(pending: seq<(IpCheck, IpIfBrief)>) returns (drained: seq<R>)
    ensures drained == Drain(pending)
  {
    drained := [];
    for j := 0 to |pending|
      invariant drained == Drain(pending[..j])
    {
      assert pending[..j + 1][..j] == pending[..j];
      drained := drained + OneInterface(pending[j].0, pending[j].1);
    }
    assert pending[..|pending|] == pending;
  }

  /** `eos_test_ipaddrs`: the walk, then the drain of the deferred generators. */
  method TestIpAddrs(tests: seq<IpCheck>, ips: map<string, IpIfBrief>) returns (results: seq<R>)
    requires MaskLensKnown(ips)
    ensures results == Missing(tests, ips) + Drain(Pending(tests, ips)) + ExclusiveList(IpCheckNames(tests), AddressedNames(ips))
  {
    results := [];
    var pending: seq<(IpCheck, IpIfBrief)> := [];
    var ifNames: seq<string> := [];
    for i := 0 to |tests|
      invariant results == Missing(tests[..i], ips)
      invariant pending == Pending(tests[..i], ips)
      invariant |ifNames| == i && forall j :: 0 <= j < i ==> ifNames[j] == tests[j].name
    {
      MissingStep(tests, i, ips);
      var c := tests[i];
      ifNames := ifNames + [c.name];
      if c.name !in ips {
        results := results + [Absent(Check(c.name), "", NoValue)];
        continue;
      }
      pending := pending + [(c, ips[c.name])];
    }
    assert tests[..|tests|] == tests;
    NamesCollected(ifNames, tests);
    var expd := set n | n in ifNames;
    var exclusive := ExclusiveList(expd, AddressedNames(ips));
    var drained := DrainPending(pending);
    results := results + drained + exclusive;
  }

  /**
   * The stream holds one NoExists failure per test whose interface the device
   * lacks, and every one of them comes before every other result.
   */
  lemma NoExistsFirst(tests: seq<IpCheck>, ips: map<string, IpIfBrief>)
    requires MaskLensKnown(ips)
    ensures var rs := Missing(tests, ips) + Drain(Pending(tests, ips)) + ExclusiveList(IpCheckNames(tests), AddressedNames(ips));
            forall i, j :: 0 <= i < |rs| && 0 <= j < |rs| && rs[i].kind == NoExists && rs[j].kind != NoExists ==> i < j
  {
    var m := Missing(tests, ips);
    var d := Drain(Pending(tests, ips));
    var x := ExclusiveList(IpCheckNames(tests), AddressedNames(ips));
    var rs := m + d + x;
    MissingOrPending(tests, ips);
    DrainHasNoNoExists(Pending(tests, ips));
    forall i | 0 <= i < |rs| ensures rs[i].kind == NoExists <==> i < |m| {
      if i < |m| { assert rs[i] == m[i]; }
      else if i < |m| + |d| { assert rs[i] == d[i - |m|]; }
      else { assert rs[i] == x[i - |m| - |d|]; }
    }
  }
}

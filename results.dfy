/**
 * The result algebra shared by every check evaluator: a result carries a
 * status, the kind of result object that was built, the check it belongs to,
 * the field it is about and a measurement payload whose type each evaluator
 * chooses.
 */
module Results {

  /** The status of a check result. Warn and Skip come from the newest revision. */
  datatype Status = Pass | Fail | Info | Warn | Skip

  /** Which result class produced the entry. */
  datatype Kind =
    | Plain          // a pass result, or an untyped failed/info test case of the older generators
    | FieldMismatch  // a failure naming one field whose value differs
    | NoExists       // a failure: the device has nothing for this check
    | MissingMembers // a failure: expected members the device lacks
    | ExtraMembers   // a failure: members the device has beyond the expected ones
    | InfoLog        // an informational entry

  /** The check a result belongs to: a design check by its id, or a collection-wide check of the library. */
  datatype CheckRef =
    | Check(id: string)
    | ExclusiveListCheck   // the exclusive-list check of a collection
    | SystemStatusCheck    // the MLAG system-status check

  datatype Result<M> = Result(status: Status, kind: Kind, check: CheckRef, field: string, measurement: M)

  function Passed<M>(check: CheckRef, field: string, m: M): Result<M> { Result(Pass, Plain, check, field, m) }
  function Mismatch<M>(check: CheckRef, field: string, m: M): Result<M> { Result(Fail, FieldMismatch, check, field, m) }
  function Absent<M>(check: CheckRef, field: string, m: M): Result<M> { Result(Fail, NoExists, check, field, m) }
  function MissingOf<M>(check: CheckRef, field: string, m: M): Result<M> { Result(Fail, MissingMembers, check, field, m) }
  function ExtraOf<M>(check: CheckRef, field: string, m: M): Result<M> { Result(Fail, ExtraMembers, check, field, m) }
  function Logged<M>(check: CheckRef, field: string, m: M): Result<M> { Result(Info, InfoLog, check, field, m) }
  function Failed<M>(check: CheckRef, field: string, m: M): Result<M> { Result(Fail, Plain, check, field, m) }

  predicate IsPass<M>(r: Result<M>) { r.status == Pass }
  predicate IsFail<M>(r: Result<M>) { r.status == Fail }

  /** `any_failures(results)`: some result in the list is a failure. */
  predicate AnyFailures<M>(rs: seq<Result<M>>) {
    exists i :: 0 <= i < |rs| && IsFail(rs[i])
  }

  /** Some result in the list is a pass. */
  predicate AnyPass<M>(rs: seq<Result<M>>) {
    exists i :: 0 <= i < |rs| && IsPass(rs[i])
  }

  /** Some failure in the list is about `field`. */
  predicate HasFailOn<M>(rs: seq<Result<M>>, field: string) {
    exists i :: 0 <= i < |rs| && IsFail(rs[i]) && rs[i].field == field
  }

  /** Some result in the list has kind `k`. */
  predicate HasKind<M>(rs: seq<Result<M>>, k: Kind) {
    exists i :: 0 <= i < |rs| && rs[i].kind == k
  }

  /** Some result in the list has kind `k` and is about `field`. */
  predicate HasKindOn<M>(rs: seq<Result<M>>, k: Kind, field: string) {
    exists i :: 0 <= i < |rs| && rs[i].kind == k && rs[i].field == field
  }

  /** Every result in the list is a failure. */
  predicate AllFail<M>(rs: seq<Result<M>>) {
    forall i :: 0 <= i < |rs| ==> IsFail(rs[i])
  }

  /** The number of passes in a result list. */
  function PassCount<M>(rs: seq<Result<M>>): (n: nat)
    ensures n <= |rs|
    ensures n == 0 <==> !AnyPass(rs)
  {
    if rs == [] then 0
    else PassCount(rs[..|rs| - 1]) + (if IsPass(rs[|rs| - 1]) then 1 else 0)
  }

  /** `results.append(PassResult)` only when nothing failed: the shape every evaluator ends with. */
  function WithPassUnlessFailed<M>(rs: seq<Result<M>>, pass: Result<M>): (out: seq<Result<M>>)
    requires IsPass(pass)
    ensures AnyPass(out) <==> AnyPass(rs) || !AnyFailures(rs)
    ensures AnyFailures(out) == AnyFailures(rs)
    ensures |out| == |rs| + (if AnyFailures(rs) then 0 else 1)
  {
    if AnyFailures(rs) then rs
    else
      AnyFailuresAppend(rs, [pass]);
      AnyPassAppend(rs, [pass]);
      assert IsPass([pass][0]);
      rs + [pass]
  }

  lemma {:induction false} PassCountAppend<M>(a: seq<Result<M>>, b: seq<Result<M>>)
    ensures PassCount(a + b) == PassCount(a) + PassCount(b)
    decreases |b|
  {
    if b == [] {
      assert a + b == a;
    } else {
      assert (a + b)[..|a + b| - 1] == a + b[..|b| - 1];
      PassCountAppend(a, b[..|b| - 1]);
    }
  }

  lemma AnyFailuresAppend<M>(a: seq<Result<M>>, b: seq<Result<M>>)
    ensures AnyFailures(a + b) <==> AnyFailures(a) || AnyFailures(b)
  {
    if AnyFailures(a + b) {
      var i :| 0 <= i < |a + b| && IsFail((a + b)[i]);
      if i >= |a| { assert IsFail(b[i - |a|]); }
    }
    if AnyFailures(a) {
      var i :| 0 <= i < |a| && IsFail(a[i]);
      assert (a + b)[i] == a[i];
    }
    if AnyFailures(b) {
      var i :| 0 <= i < |b| && IsFail(b[i]);
      assert (a + b)[|a| + i] == b[i];
    }
  }

  lemma AnyPassAppend<M>(a: seq<Result<M>>, b: seq<Result<M>>)
    ensures AnyPass(a + b) <==> AnyPass(a) || AnyPass(b)
  {
    if AnyPass(a + b) {
      var i :| 0 <= i < |a + b| && IsPass((a + b)[i]);
      if i >= |a| { assert IsPass(b[i - |a|]); }
    }
    if AnyPass(a) {
      var i :| 0 <= i < |a| && IsPass(a[i]);
      assert (a + b)[i] == a[i];
    }
    if AnyPass(b) {
      var i :| 0 <= i < |b| && IsPass(b[i]);
      assert (a + b)[|a| + i] == b[i];
    }
  }

  lemma HasFailOnAppend<M>(a: seq<Result<M>>, b: seq<Result<M>>, field: string)
    ensures HasFailOn(a + b, field) <==> HasFailOn(a, field) || HasFailOn(b, field)
  {
    if HasFailOn(a + b, field) {
      var i :| 0 <= i < |a + b| && IsFail((a + b)[i]) && (a + b)[i].field == field;
      if i >= |a| { assert (a + b)[i] == b[i - |a|]; }
    }
    if HasFailOn(a, field) {
      var i :| 0 <= i < |a| && IsFail(a[i]) && a[i].field == field;
      assert (a + b)[i] == a[i];
    }
    if HasFailOn(b, field) {
      var i :| 0 <= i < |b| && IsFail(b[i]) && b[i].field == field;
      assert (a + b)[|a| + i] == b[i];
    }
  }

  lemma HasKindAppend<M>(a: seq<Result<M>>, b: seq<Result<M>>, k: Kind)
    ensures HasKind(a + b, k) <==> HasKind(a, k) || HasKind(b, k)
  {
    if HasKind(a + b, k) {
      var i :| 0 <= i < |a + b| && (a + b)[i].kind == k;
      if i >= |a| { assert (a + b)[i] == b[i - |a|]; }
    }
    if HasKind(a, k) {
      var i :| 0 <= i < |a| && a[i].kind == k;
      assert (a + b)[i] == a[i];
    }
    if HasKind(b, k) {
      var i :| 0 <= i < |b| && b[i].kind == k;
      assert (a + b)[|a| + i] == b[i];
    }
  }

  lemma HasKindOnAppend<M>(a: seq<Result<M>>, b: seq<Result<M>>, k: Kind, field: string)
    ensures HasKindOn(a + b, k, field) <==> HasKindOn(a, k, field) || HasKindOn(b, k, field)
  {
    if HasKindOn(a + b, k, field) {
      var i :| 0 <= i < |a + b| && (a + b)[i].kind == k && (a + b)[i].field == field;
      if i >= |a| { assert (a + b)[i] == b[i - |a|]; }
    }
    if HasKindOn(a, k, field) {
      var i :| 0 <= i < |a| && a[i].kind == k && a[i].field == field;
      assert (a + b)[i] == a[i];
    }
    if HasKindOn(b, k, field) {
      var i :| 0 <= i < |b| && b[i].kind == k && b[i].field == field;
      assert (a + b)[|a| + i] == b[i];
    }
  }

  lemma AllFailAppend<M>(a: seq<Result<M>>, b: seq<Result<M>>)
    requires AllFail(a) && AllFail(b)
    ensures AllFail(a + b)
  {
    forall i | 0 <= i < |a + b| ensures IsFail((a + b)[i]) {
      if i < |a| { assert (a + b)[i] == a[i]; } else { assert (a + b)[i] == b[i - |a|]; }
    }
  }

  /** A list of failures holds no pass, and holds a failure unless it is empty. */
  lemma AllFailFacts<M>(rs: seq<Result<M>>)
    requires AllFail(rs)
    ensures !AnyPass(rs)
    ensures AnyFailures(rs) <==> rs != []
  {
    if rs != [] { assert IsFail(rs[0]); }
  }

  /** The exclusive-list algebra: two member sets agree exactly when neither difference has an element. */
  lemma SameMembersIffNoDifference<T>(expected: set<T>, measured: set<T>)
    ensures expected == measured <==> expected - measured == {} && measured - expected == {}
  {
    if expected - measured == {} && measured - expected == {} {
      forall x | x in expected ensures x in measured { assert x !in expected - measured; }
      forall x | x in measured ensures x in expected { assert x !in measured - expected; }
    }
  }
}

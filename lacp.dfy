/**
 * The LACP member table of a port-channel and the bundle-status partition
 * every LAG evaluator builds from it: a `defaultdict(list)` keyed by each
 * member's `actorPortStatus`, in first-occurrence order, from which the
 * "bundled" group is popped; what remains, chained, lists the members that
 * are not bundled.
 */
module Lacp {

  /** The bundle status of a bundled member. */
  const Bundled := "bundled"

  /** One entry of a port-channel's `interfaces` table, in device order. */
  datatype LacpMember = LacpMember(name: string, actorPortStatus: string)

  /** A `defaultdict(list)` as its items in insertion order. */
  type Groups = seq<(string, seq<string>)>

  /** The member names, in device order. */
  function Names(members: seq<LacpMember>): (names: seq<string>)
    ensures |names| == |members|
    ensures forall i :: 0 <= i < |members| ==> names[i] == members[i].name
  {
    if members == [] then [] else Names(members[..|members| - 1]) + [members[|members| - 1].name]
  }

  /** The names of the members whose status is not `status`, in device order. */
  function NamesNotWith(members: seq<LacpMember>, status: string): (names: seq<string>)
    ensures forall n :: n in names <==> exists i :: 0 <= i < |members| && members[i].actorPortStatus != status && members[i].name == n
  {
    if members == [] then []
    else
      var init := members[..|members| - 1];
      var m := members[|members| - 1];
      var names := NamesNotWith(init, status) + (if m.actorPortStatus != status then [m.name] else []);
      assert forall i :: 0 <= i < |init| ==> init[i] == members[i];
      names
  }

  /** Some member has status `status`. */
  predicate SomeWith(members: seq<LacpMember>, status: string) {
    exists i :: 0 <= i < |members| && members[i].actorPortStatus == status
  }

  predicate HasKey(g: Groups, k: string) {
    exists i :: 0 <= i < |g| && g[i].0 == k
  }

  /** `bundle_status[status].append(name)` */
  function Group(g: Groups, status: string, name: string): Groups {
    if g == [] then [(status, [name])]
    else if g[0].0 == status then [(status, g[0].1 + [name])] + g[1..]
    else [g[0]] + Group(g[1..], status, name)
  }

  /** `bundle_status.pop(k)`, the entry with key `k` removed. */
  function Pop(g: Groups, k: string): Groups {
    if g == [] then []
    else if g[0].0 == k then g[1..]
    else [g[0]] + Pop(g[1..], k)
  }

  /** `chain.from_iterable(bundle_status.values())` */
  function Chain(g: Groups): seq<string> {
    if g == [] then [] else g[0].1 + Chain(g[1..])
  }

  /** The partition of the whole member table. */
  function GroupAll(members: seq<LacpMember>): Groups {
    if members == [] then []
    else
      var m := members[|members| - 1];
      Group(GroupAll(members[..|members| - 1]), m.actorPortStatus, m.name)
  }

  /** Every group of a `defaultdict` built by appending holds at least one name. */
  predicate NoEmptyGroup(g: Groups) {
    forall i :: 0 <= i < |g| ==> g[i].1 != []
  }

  lemma HasKeyCons(x: (string, seq<string>), t: Groups, k: string)
    ensures HasKey([x] + t, k) <==> x.0 == k || HasKey(t, k)
  {
    var r := [x] + t;
    if HasKey(r, k) && x.0 != k {
      var i :| 0 <= i < |r| && r[i].0 == k;
      assert t[i - 1].0 == k;
    }
    if HasKey(t, k) {
      var i :| 0 <= i < |t| && t[i].0 == k;
      assert r[i + 1].0 == k;
    }
    assert r[0] == x;
  }

  lemma {:induction false} GroupKeys(g: Groups, status: string, name: string, k: string)
    ensures HasKey(Group(g, status, name), k) <==> HasKey(g, k) || k == status
    ensures NoEmptyGroup(g) ==> NoEmptyGroup(Group(g, status, name))
  {
    if g == [] {
      HasKeyCons((status, [name]), [], k);
    } else {
      assert g == [g[0]] + g[1..];
      HasKeyCons(g[0], g[1..], k);
      if g[0].0 != status {
        GroupKeys(g[1..], status, name, k);
        HasKeyCons(g[0], Group(g[1..], status, name), k);
      } else {
        HasKeyCons((status, g[0].1 + [name]), g[1..], k);
      }
    }
  }

  /** Popping the key a name was just grouped under undoes the grouping. */
  lemma {:induction false} PopGroupSame(g: Groups, status: string, name: string)
    ensures Pop(Group(g, status, name), status) == Pop(g, status)
  {
    if g != [] && g[0].0 != status {
      PopGroupSame(g[1..], status, name);
    }
  }

  /** Under another key, the grouped name survives the pop. */
  lemma {:induction false} PopGroupOther(g: Groups, status: string, name: string, k: string)
    requires status != k
    ensures multiset(Chain(Pop(Group(g, status, name), k))) == multiset(Chain(Pop(g, k))) + multiset{name}
  {
    if g == [] {
      assert Group(g, status, name) == [(status, [name])];
    } else if g[0].0 == status {
      var r := Group(g, status, name);
      assert r[1..] == g[1..];
      assert Pop(r, k) == [r[0]] + Pop(g[1..], k);
      assert Chain(Pop(r, k)) == g[0].1 + [name] + Chain(Pop(g[1..], k));
    } else if g[0].0 == k {
      var r := Group(g, status, name);
      assert r == [g[0]] + Group(g[1..], status, name);
      assert Pop(r, k) == Group(g[1..], status, name);
      GroupChain(g[1..], status, name);
    } else {
      PopGroupOther(g[1..], status, name, k);
      var r := Group(g, status, name);
      assert r == [g[0]] + Group(g[1..], status, name);
    }
  }

  /** Grouping adds the name to the chained values. */
  lemma {:induction false} GroupChain(g: Groups, status: string, name: string)
    ensures multiset(Chain(Group(g, status, name))) == multiset(Chain(g)) + multiset{name}
  {
    if g != [] && g[0].0 != status {
      GroupChain(g[1..], status, name);
    } else if g != [] {
      assert Group(g, status, name)[1..] == g[1..];
    }
  }

  lemma {:induction false} PopKeepsNonEmpty(g: Groups, k: string)
    requires NoEmptyGroup(g)
    ensures NoEmptyGroup(Pop(g, k))
    ensures Pop(g, k) != [] <==> Chain(Pop(g, k)) != []
  {
    if g != [] {
      PopKeepsNonEmpty(g[1..], k);
      if g[0].0 != k {
        assert Pop(g, k) == [g[0]] + Pop(g[1..], k);
      }
    }
  }

  lemma {:induction false} GroupAllKeys(members: seq<LacpMember>, k: string)
    ensures HasKey(GroupAll(members), k) <==> SomeWith(members, k)
    ensures NoEmptyGroup(GroupAll(members))
  {
    if members != [] {
      var init := members[..|members| - 1];
      var m := members[|members| - 1];
      GroupAllKeys(init, k);
      GroupKeys(GroupAll(init), m.actorPortStatus, m.name, k);
      if SomeWith(members, k) {
        var i :| 0 <= i < |members| && members[i].actorPortStatus == k;
        if i < |init| { assert init[i].actorPortStatus == k; }
      }
      if SomeWith(init, k) {
        var i :| 0 <= i < |init| && init[i].actorPortStatus == k;
        assert members[i].actorPortStatus == k;
      }
    }
  }

  lemma {:induction false} GroupAllChain(members: seq<LacpMember>)
    ensures multiset(Chain(Pop(GroupAll(members), Bundled))) == multiset(NamesNotWith(members, Bundled))
  {
    if members != [] {
      var init := members[..|members| - 1];
      var m := members[|members| - 1];
      GroupAllChain(init);
      if m.actorPortStatus == Bundled {
        PopGroupSame(GroupAll(init), Bundled, m.name);
      } else {
        PopGroupOther(GroupAll(init), m.actorPortStatus, m.name, Bundled);
      }
    }
  }

  /**
   * The partition of a member table: its keys are exactly the statuses that
   * occur, and once "bundled" is popped the remaining groups hold exactly the
   * members that are not bundled, each once, and are empty exactly when every
   * member is bundled.
   */
  lemma GroupAllRules(members: seq<LacpMember>, k: string)
    ensures HasKey(GroupAll(members), k) <==> SomeWith(members, k)
    ensures multiset(Chain(Pop(GroupAll(members), Bundled))) == multiset(NamesNotWith(members, Bundled))
    ensures Pop(GroupAll(members), Bundled) != [] <==> NamesNotWith(members, Bundled) != []
  {
    GroupAllKeys(members, k);
    GroupAllChain(members);
    PopKeepsNonEmpty(GroupAll(members), Bundled);
    var rest := Pop(GroupAll(members), Bundled);
    if NamesNotWith(members, Bundled) != [] {
      assert NamesNotWith(members, Bundled)[0] in multiset(Chain(rest));
    }
  }

  /** The member table is a dictionary: no name occurs twice. */
  predicate DistinctNames(members: seq<LacpMember>) {
    forall i, j :: 0 <= i < j < |members| ==> members[i].name != members[j].name
  }

  /** A set built from a list has no more elements than the list. */
  lemma {:induction false} SetOfSeqCard(s: seq<string>)
    ensures |set x | x in s| <= |s|
  {
    if s != [] {
      var init := s[..|s| - 1];
      SetOfSeqCard(init);
      assert (set x | x in s) == (set x | x in init) + {s[|s| - 1]} by {
        assert s == init + [s[|s| - 1]];
      }
    }
  }

  /** A bundled member is left out of the names that are not bundled. */
  lemma {:induction false} NotWithShorter(members: seq<LacpMember>, status: string)
    ensures |NamesNotWith(members, status)| <= |members|
    ensures SomeWith(members, status) ==> |NamesNotWith(members, status)| < |members|
  {
    if members != [] {
      var init := members[..|members| - 1];
      NotWithShorter(init, status);
      if SomeWith(members, status) && members[|members| - 1].actorPortStatus != status {
        var i :| 0 <= i < |members| && members[i].actorPortStatus == status;
        assert init[i].actorPortStatus == status;
      }
    }
  }

  /** The `defaultdict(list)` loop over the member table. */
  method BundleStatus(members: seq<LacpMember>) returns (groups: Groups)
    ensures groups == GroupAll(members)
  {
    groups := [];
    for i := 0 to |members|
      invariant groups == GroupAll(members[..i])
    {
      assert members[..i + 1][..i] == members[..i];
      groups := Group(groups, members[i].actorPortStatus, members[i].name);
    }
    assert members[..|members|] == members;
  }
}

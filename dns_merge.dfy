/**
 * The DNS search-order merge run for each adapter that needs an update: the
 * policy primary server goes in front when absent, the policy secondary right
 * after the first entry (or at the end of an empty list) when absent, and the
 * adapter is rewritten only when something was inserted.
 */
module DnsMerge {
  import opened Wrappers

  /** The new search order and the `changed` flag that decides whether it is written. */
  datatype Merged = Merged(servers: seq<string>, changed: bool)

  /** The first step: an absent primary server goes in front. */
  function InsertPrimary(existing: seq<string>, primary: Option<string>): seq<string> {
    if primary.Some? && primary.value !in existing then [primary.value] + existing else existing
  }

  /** The second step: an absent secondary server goes after the first entry, or at the end of an empty list. */
  function InsertSecondary(list: seq<string>, secondary: Option<string>): seq<string> {
    if secondary.Some? && secondary.value !in list then
      if |list| > 0 then list[..1] + [secondary.value] + list[1..] else list + [secondary.value]
    else list
  }

  /** Reference definition of the merge: the two steps, and whether either inserted a server. */
  function Merge(existing: seq<string>, primary: Option<string>, secondary: Option<string>): Merged {
    var afterPrimary := InsertPrimary(existing, primary);
    Merged(InsertSecondary(afterPrimary, secondary),
           (primary.Some? && primary.value !in existing) || (secondary.Some? && secondary.value !in afterPrimary))
  }

  /**
   * After the merge every non-null policy server is in the list, every
   * pre-existing entry is still there, and nothing else was added.
   */
  lemma MergeContents(existing: seq<string>, primary: Option<string>, secondary: Option<string>)
    ensures var r := Merge(existing, primary, secondary).servers;
      && (primary.Some? ==> primary.value in r)
      && (secondary.Some? ==> secondary.value in r)
      && (forall x :: x in existing ==> x in r)
      && (forall x :: x in r ==> x in existing || Some(x) == primary || Some(x) == secondary)
  {
  }

  /** The merge as the service performs it: a list edited in place with Insert/Add. */
  method MergeSearchOrder(existing: seq<string>, primary: Option<string>, secondary: Option<string>)
    returns (servers: seq<string>, changed: bool)
    ensures servers == Merge(existing, primary, secondary).servers
    ensures changed == Merge(existing, primary, secondary).changed
  {
    servers := existing;
    changed := false;
    if primary.Some? {
      if primary.value !in servers {
        servers := [primary.value] + servers;
        changed := true;
      }
    }
    if secondary.Some? {
      if secondary.value !in servers {
        changed := true;
        if |servers| > 0 {
          servers := servers[..1] + [secondary.value] + servers[1..];
        } else {
          servers := servers + [secondary.value];
        }
      }
    }
  }

  /** Whether an adapter whose list is `servers` lacks a configured policy server. */
  predicate NeedsUpdate(servers: seq<string>, primary: Option<string>, secondary: Option<string>) {
    (primary.Some? && primary.value !in servers) || (secondary.Some? && secondary.value !in servers)
  }

  /**
   * Where the policy servers land: an absent primary at index 0, an absent
   * secondary at index 1 of a non-empty list (index 0 of an empty one), and
   * every pre-existing entry kept, in its original order.
   */
  lemma MergePlacement(existing: seq<string>, primary: Option<string>, secondary: Option<string>)
    ensures var r := Merge(existing, primary, secondary).servers;
      var p := primary.Some? && primary.value !in existing;
      var s := secondary.Some? && secondary.value !in existing && secondary != primary;
      && (!p && !s ==> r == existing)
      && (p && !s ==> r == [primary.value] + existing)
      && (!p && s && existing != [] ==> r == [existing[0], secondary.value] + existing[1..])
      && (!p && s && existing == [] ==> r == [secondary.value])
      && (p && s ==> r == [primary.value, secondary.value] + existing)
  {
    var p := primary.Some? && primary.value !in existing;
    var s := secondary.Some? && secondary.value !in existing && secondary != primary;
    var r := Merge(existing, primary, secondary).servers;
    if p && s {
      var afterPrimary := [primary.value] + existing;
      assert secondary.value !in afterPrimary;
      assert afterPrimary[..1] == [primary.value];
      assert afterPrimary[1..] == existing;
    } else if !p && s && existing != [] {
      assert existing[..1] == [existing[0]];
    }
  }

  /** `changed` is set exactly when the list grew, i.e. when a server was inserted. */
  lemma ChangedIffGrown(existing: seq<string>, primary: Option<string>, secondary: Option<string>)
    ensures var m := Merge(existing, primary, secondary);
      && (m.changed <==> |m.servers| > |existing|)
      && (m.changed <==> m.servers != existing)
      && |existing| <= |m.servers| <= |existing| + 2
  {
  }

  /** The merge writes exactly when the adapter lacked a policy server. */
  lemma ChangedIffNeedsUpdate(existing: seq<string>, primary: Option<string>, secondary: Option<string>)
    ensures Merge(existing, primary, secondary).changed <==> NeedsUpdate(existing, primary, secondary)
  {
  }

  /** Inserting `v` at position `k` adds one occurrence of `v` and changes no other count. */
  lemma InsertCount(xs: seq<string>, k: nat, v: string)
    requires k <= |xs|
    ensures multiset(xs[..k] + [v] + xs[k..]) == multiset(xs) + multiset{v}
  {
    assert xs == xs[..k] + xs[k..];
  }

  /** The first step adds one occurrence of the primary server when it inserts it, and nothing else. */
  lemma InsertPrimaryCount(existing: seq<string>, primary: Option<string>)
    ensures multiset(InsertPrimary(existing, primary))
         == multiset(existing) + (if primary.Some? && primary.value !in existing then multiset{primary.value} else multiset{})
  {
    if primary.Some? && primary.value !in existing {
      InsertCount(existing, 0, primary.value);
      assert InsertPrimary(existing, primary) == existing[..0] + [primary.value] + existing[0..];
    }
  }

  /** The second step adds one occurrence of the secondary server when it inserts it, and nothing else. */
  lemma InsertSecondaryCount(list: seq<string>, secondary: Option<string>)
    ensures multiset(InsertSecondary(list, secondary))
         == multiset(list) + (if secondary.Some? && secondary.value !in list then multiset{secondary.value} else multiset{})
  {
    if secondary.Some? && secondary.value !in list {
      if |list| > 0 {
        InsertCount(list, 1, secondary.value);
      } else {
        InsertCount(list, 0, secondary.value);
        assert list + [secondary.value] == list[..0] + [secondary.value] + list[0..];
      }
    }
  }

  /**
   * No duplicates are introduced: a pre-existing entry occurs as often as
   * before, and an entry that was not there before occurs at most once.
   */
  lemma MergeNoNewDuplicates(existing: seq<string>, primary: Option<string>, secondary: Option<string>)
    ensures forall x :: multiset(existing)[x] > 0 ==>
      multiset(Merge(existing, primary, secondary).servers)[x] == multiset(existing)[x]
    ensures forall x :: multiset(existing)[x] == 0 ==>
      multiset(Merge(existing, primary, secondary).servers)[x] <= 1
  {
    var afterPrimary := InsertPrimary(existing, primary);
    InsertPrimaryCount(existing, primary);
    InsertSecondaryCount(afterPrimary, secondary);
    SumOfInsertions(multiset(existing), multiset(afterPrimary), multiset(InsertSecondary(afterPrimary, secondary)),
      if primary.Some? && primary.value !in existing then multiset{primary.value} else multiset{},
      if secondary.Some? && secondary.value !in afterPrimary then multiset{secondary.value} else multiset{});
  }

  /**
   * Counting after two insertions: each inserted multiset holds at most one
   * element, which was absent before it was inserted.
   */
  lemma SumOfInsertions(e: multiset<string>, mid: multiset<string>, r: multiset<string>, first: multiset<string>, second: multiset<string>)
    requires mid == e + first && r == mid + second
    requires forall x :: first[x] > 0 ==> first[x] == 1 && e[x] == 0
    requires forall x :: second[x] > 0 ==> second[x] == 1 && mid[x] == 0
    ensures forall x :: e[x] > 0 ==> r[x] == e[x]
    ensures forall x :: e[x] == 0 ==> r[x] <= 1
  {
    forall x
      ensures e[x] > 0 ==> r[x] == e[x]
      ensures e[x] == 0 ==> r[x] <= 1
    {
      assert r[x] == e[x] + first[x] + second[x];
    }
  }

  /** A list without duplicates stays without duplicates. */
  lemma MergeKeepsDistinct(existing: seq<string>, primary: Option<string>, secondary: Option<string>)
    requires forall i, j :: 0 <= i < j < |existing| ==> existing[i] != existing[j]
    ensures var r := Merge(existing, primary, secondary).servers;
      forall i, j :: 0 <= i < j < |r| ==> r[i] != r[j]
  {
    MergePlacement(existing, primary, secondary);
  }

  /** After a merge no policy server is missing. */
  lemma MergeSatisfiesPolicy(existing: seq<string>, primary: Option<string>, secondary: Option<string>)
    ensures !NeedsUpdate(Merge(existing, primary, secondary).servers, primary, secondary)
  {
  }

  /** Merging the result again inserts nothing and writes nothing. */
  lemma MergeIdempotent(existing: seq<string>, primary: Option<string>, secondary: Option<string>)
    ensures var once := Merge(existing, primary, secondary).servers;
      Merge(once, primary, secondary) == Merged(once, false)
  {
    var once := Merge(existing, primary, secondary).servers;
    MergeSatisfiesPolicy(existing, primary, secondary);
    ChangedIffNeedsUpdate(once, primary, secondary);
    ChangedIffGrown(once, primary, secondary);
  }

  /** The example of one adapter on 8.8.8.8 with policy 1.1.1.1 / 9.9.9.9. */
  lemma MergeExample()
    ensures Merge(["8.8.8.8"], Some("1.1.1.1"), Some("9.9.9.9"))
         == Merged(["1.1.1.1", "9.9.9.9", "8.8.8.8"], true)
  {
    MergePlacement(["8.8.8.8"], Some("1.1.1.1"), Some("9.9.9.9"));
  }
}

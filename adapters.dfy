/**
 * Network adapters as the enforcement engine sees them, and the two passes it
 * makes over them: applying the policy servers (the enforce pass of
 * TryEnforce) and clearing every search order back to DHCP (SetDnsToDhcp).
 * Each write carries the status code the operating system answered with; a
 * write takes effect only when that code is 0.
 */
module Adapters {
  import opened Wrappers
  import opened DnsMerge

  /** One entry of the interface enumeration; `servers` is its DNS search order. */
  datatype Adapter = Adapter(description: string, up: bool, tunnel: bool, servers: seq<string>)

  /** One SetDNSServerSearchOrder call: which adapter, the list written, the status returned. */
  datatype Write = Write(adapter: nat, servers: seq<string>, status: nat)

  /** The adapters both passes act on: operational status Up and not a tunnel. */
  predicate Selected(a: Adapter) {
    a.up && !a.tunnel
  }

  /**
   * Adapter `a` after the enforce pass. `start` is the list the merge starts
   * from (the search order held by the parameter object of the write, see
   * StartList), and `status` is what the write returned.
   */
  function Enforced(a: Adapter, primary: Option<string>, secondary: Option<string>, start: seq<string>, status: nat): Adapter {
    if Selected(a) && NeedsUpdate(a.servers, primary, secondary) && Merge(start, primary, secondary).changed && status == 0
    then a.(servers := Merge(start, primary, secondary).servers)
    else a
  }

  /**
   * The enforce pass changes only the search order of an adapter that is
   * selected, lacks a policy server, whose merge changed its starting list and
   * which accepted the write; such an adapter lacks no policy server
   * afterwards. When the starting list already holds every policy server,
   * nothing changes, even for an adapter that lacks one.
   */
  lemma EnforcedSpec(a: Adapter, primary: Option<string>, secondary: Option<string>, start: seq<string>, status: nat)
    ensures var b := Enforced(a, primary, secondary, start, status);
      && b.description == a.description && b.up == a.up && b.tunnel == a.tunnel
      && (b != a ==> Selected(a) && NeedsUpdate(a.servers, primary, secondary) && NeedsUpdate(start, primary, secondary) && status == 0)
      && (b != a ==> !NeedsUpdate(b.servers, primary, secondary))
      && (Selected(a) && status == 0 && NeedsUpdate(start, primary, secondary) ==> !NeedsUpdate(b.servers, primary, secondary))
      && (!NeedsUpdate(start, primary, secondary) ==> b == a)
  {
    ChangedIffNeedsUpdate(start, primary, secondary);
    if Merge(start, primary, secondary).changed {
      MergeSatisfiesPolicy(start, primary, secondary);
    }
  }

  /**
   * The list the merge for an adapter starts from: the DNSServerSearchOrder of
   * the parameter object, or the empty list when that is null or empty.
   */
  function StartList(order: Option<seq<string>>): seq<string> {
    order.GetOr([])
  }

  function EnforceAll(adapters: seq<Adapter>, primary: Option<string>, secondary: Option<string>, order: nat -> Option<seq<string>>, status: nat -> nat): seq<Adapter> {
    seq(|adapters|, i requires 0 <= i < |adapters| => Enforced(adapters[i], primary, secondary, StartList(order(i)), status(i)))
  }

  /** The write the enforce pass issues for adapter `i`, if any. */
  function EnforceWriteFor(adapters: seq<Adapter>, i: nat, primary: Option<string>, secondary: Option<string>, order: nat -> Option<seq<string>>, status: nat -> nat): seq<Write>
    requires i < |adapters|
  {
    if Selected(adapters[i]) && NeedsUpdate(adapters[i].servers, primary, secondary) && Merge(StartList(order(i)), primary, secondary).changed
    then [Write(i, Merge(StartList(order(i)), primary, secondary).servers, status(i))]
    else []
  }

  /** The writes the enforce pass issues for the first `n` adapters, in order. */
  function EnforceWrites(adapters: seq<Adapter>, primary: Option<string>, secondary: Option<string>, order: nat -> Option<seq<string>>, status: nat -> nat, n: nat): seq<Write>
    requires n <= |adapters|
  {
    if n == 0 then []
    else EnforceWrites(adapters, primary, secondary, order, status, n - 1) + EnforceWriteFor(adapters, n - 1, primary, secondary, order, status)
  }

  /**
   * Adapter `a` after the DHCP pass, given the status of its write. An empty
   * search order hands the adapter back to DHCP, so the addresses it reports
   * afterwards are the ones DHCP gives it, `dhcp`.
   */
  function Reverted(a: Adapter, dhcp: seq<string>, status: nat): (b: Adapter)
    ensures b.description == a.description && b.up == a.up && b.tunnel == a.tunnel
    ensures Selected(a) && status == 0 ==> b.servers == dhcp
    ensures !Selected(a) || status != 0 || a.servers == dhcp ==> b == a
  {
    if Selected(a) && status == 0 then a.(servers := dhcp) else a
  }

  function RevertAll(adapters: seq<Adapter>, dhcp: nat -> seq<string>, status: nat -> nat): seq<Adapter> {
    seq(|adapters|, i requires 0 <= i < |adapters| => Reverted(adapters[i], dhcp(i), status(i)))
  }

  /** The writes the DHCP pass issues for the first `n` adapters: an empty list for each selected one. */
  function RevertWrites(adapters: seq<Adapter>, status: nat -> nat, n: nat): seq<Write>
    requires n <= |adapters|
  {
    if n == 0 then []
    else RevertWrites(adapters, status, n - 1)
         + (if Selected(adapters[n - 1]) then [Write(n - 1, [], status(n - 1))] else [])
  }

  /**
   * One iteration of the enforce pass of TryEnforce: a selected adapter that
   * lacks a policy server has the search order of its parameter object
   * merged, and written when the merge changed it. `order(i)` is that search
   * order, None when the parameter object holds null.
   */
  method EnforceAdapter(adapters: seq<Adapter>, i: nat, primary: Option<string>, secondary: Option<string>, order: nat -> Option<seq<string>>, status: nat -> nat)
    returns (b: Adapter, issued: seq<Write>)
    requires i < |adapters|
    ensures b == Enforced(adapters[i], primary, secondary, StartList(order(i)), status(i))
    ensures issued == EnforceWriteFor(adapters, i, primary, secondary, order, status)
  {
    var a := adapters[i];
    b := a;
    issued := [];
    if Selected(a) {
      var needsUpdate := false;
      if primary.Some? && primary.value !in a.servers {
        needsUpdate := true;
      }
      if secondary.Some? && secondary.value !in a.servers {
        needsUpdate := true;
      }
      if needsUpdate {
        var existing := order(i);
        var dnsServers := [];
        if existing.Some? && |existing.value| > 0 {
          dnsServers := existing.value;
        }
        var servers, changed := MergeSearchOrder(dnsServers, primary, secondary);
        if changed {
          issued := [Write(i, servers, status(i))];
          if status(i) == 0 {
            b := a.(servers := servers);
          }
        }
      }
    }
  }

  /** The enforce pass of TryEnforce over every enumerated adapter, in order. */
  method EnforceAdapters(adapters: seq<Adapter>, primary: Option<string>, secondary: Option<string>, order: nat -> Option<seq<string>>, status: nat -> nat)
    returns (result: seq<Adapter>, writes: seq<Write>)
    ensures result == EnforceAll(adapters, primary, secondary, order, status)
    ensures writes == EnforceWrites(adapters, primary, secondary, order, status, |adapters|)
  {
    result := [];
    writes := [];
    for i := 0 to |adapters|
      invariant result == EnforceAll(adapters[..i], primary, secondary, order, status)
      invariant writes == EnforceWrites(adapters, primary, secondary, order, status, i)
    {
      var b, issued := EnforceAdapter(adapters, i, primary, secondary, order, status);
      EnforceAllExtend(adapters, i, primary, secondary, order, status);
      result := result + [b];
      writes := writes + issued;
    }
    assert adapters[..|adapters|] == adapters;
  }

  /** The enforce pass over one more adapter appends that adapter's outcome. */
  lemma EnforceAllExtend(adapters: seq<Adapter>, i: nat, primary: Option<string>, secondary: Option<string>, order: nat -> Option<seq<string>>, status: nat -> nat)
    requires i < |adapters|
    ensures EnforceAll(adapters[..i + 1], primary, secondary, order, status)
         == EnforceAll(adapters[..i], primary, secondary, order, status) + [Enforced(adapters[i], primary, secondary, StartList(order(i)), status(i))]
  {
  }

  /**
   * The loop of SetDnsToDhcp: every selected adapter is written an empty list;
   * a non-zero status is only logged, and the loop goes on to the next adapter.
   * `dhcp(i)` is what adapter `i` reports once DHCP has configured it.
   */
  method RevertAdapters(adapters: seq<Adapter>, dhcp: nat -> seq<string>, status: nat -> nat) returns (result: seq<Adapter>, writes: seq<Write>)
    ensures result == RevertAll(adapters, dhcp, status)
    ensures writes == RevertWrites(adapters, status, |adapters|)
  {
    result := [];
    writes := [];
    for i := 0 to |adapters|
      invariant result == RevertAll(adapters[..i], dhcp, status)
      invariant writes == RevertWrites(adapters, status, i)
    {
      var a := adapters[i];
      if Selected(a) {
        var ret := status(i);
        writes := writes + [Write(i, [], ret)];
        if ret == 0 {
          a := a.(servers := dhcp(i));
        }
      }
      RevertAllExtend(adapters, i, dhcp, status);
      result := result + [a];
    }
    assert adapters[..|adapters|] == adapters;
  }

  /** The DHCP pass over one more adapter appends that adapter's outcome. */
  lemma RevertAllExtend(adapters: seq<Adapter>, i: nat, dhcp: nat -> seq<string>, status: nat -> nat)
    requires i < |adapters|
    ensures RevertAll(adapters[..i + 1], dhcp, status) == RevertAll(adapters[..i], dhcp, status) + [Reverted(adapters[i], dhcp(i), status(i))]
  {
  }

  /**
   * The enforce pass writes to each selected adapter that lacks a policy
   * server and whose starting list lacks one too the merged starting list,
   * and to no other adapter.
   */
  lemma {:induction false} EnforceWritesExactly(adapters: seq<Adapter>, primary: Option<string>, secondary: Option<string>, order: nat -> Option<seq<string>>, status: nat -> nat, n: nat)
    requires n <= |adapters|
    ensures forall w :: w in EnforceWrites(adapters, primary, secondary, order, status, n) <==>
      && w.adapter < n
      && Selected(adapters[w.adapter])
      && NeedsUpdate(adapters[w.adapter].servers, primary, secondary)
      && NeedsUpdate(StartList(order(w.adapter)), primary, secondary)
      && w == Write(w.adapter, Merge(StartList(order(w.adapter)), primary, secondary).servers, status(w.adapter))
  {
    if n > 0 {
      EnforceWritesExactly(adapters, primary, secondary, order, status, n - 1);
      ChangedIffNeedsUpdate(StartList(order(n - 1)), primary, secondary);
    }
  }

  /** The enforce pass writes in enumeration order, so at most once per adapter. */
  lemma {:induction false} EnforceWritesOrdered(adapters: seq<Adapter>, primary: Option<string>, secondary: Option<string>, order: nat -> Option<seq<string>>, status: nat -> nat, n: nat)
    requires n <= |adapters|
    ensures forall k :: 0 <= k < |EnforceWrites(adapters, primary, secondary, order, status, n)| ==>
      EnforceWrites(adapters, primary, secondary, order, status, n)[k].adapter < n
    ensures forall j, k :: 0 <= j < k < |EnforceWrites(adapters, primary, secondary, order, status, n)| ==>
      EnforceWrites(adapters, primary, secondary, order, status, n)[j].adapter < EnforceWrites(adapters, primary, secondary, order, status, n)[k].adapter
  {
    if n > 0 {
      EnforceWritesOrdered(adapters, primary, secondary, order, status, n - 1);
      var prev := EnforceWrites(adapters, primary, secondary, order, status, n - 1);
      var last := EnforceWriteFor(adapters, n - 1, primary, secondary, order, status);
      var ws := prev + last;
      assert EnforceWrites(adapters, primary, secondary, order, status, n) == ws;
      forall k | 0 <= k < |ws|
        ensures ws[k].adapter < n
        ensures k >= |prev| ==> ws[k].adapter == n - 1
      {
        if k >= |prev| {
          assert ws[k] == last[k - |prev|];
          assert last == [Write(n - 1, Merge(StartList(order(n - 1)), primary, secondary).servers, status(n - 1))];
        } else {
          assert ws[k] == prev[k];
          assert prev[k].adapter < n - 1;
        }
      }
    }
  }

  /** The DHCP pass writes exactly once, an empty list, to each selected adapter and to no other. */
  lemma {:induction false} RevertWritesExactly(adapters: seq<Adapter>, status: nat -> nat, n: nat)
    requires n <= |adapters|
    ensures var ws := RevertWrites(adapters, status, n);
      && (forall w :: w in ws <==>
            w.adapter < n && Selected(adapters[w.adapter]) && w == Write(w.adapter, [], status(w.adapter)))
      && (forall j, k :: 0 <= j < k < |ws| ==> ws[j].adapter < ws[k].adapter)
  {
    if n > 0 {
      RevertWritesExactly(adapters, status, n - 1);
    }
  }

  /** Enforcing twice gives the adapters enforcing once gives. */
  lemma EnforceIdempotent(adapters: seq<Adapter>, primary: Option<string>, secondary: Option<string>, order: nat -> Option<seq<string>>, status: nat -> nat)
    ensures var once := EnforceAll(adapters, primary, secondary, order, status);
      EnforceAll(once, primary, secondary, order, status) == once
  {
    var once := EnforceAll(adapters, primary, secondary, order, status);
    forall i | 0 <= i < |adapters|
      ensures Enforced(once[i], primary, secondary, StartList(order(i)), status(i)) == once[i]
    {
      EnforcedSpec(adapters[i], primary, secondary, StartList(order(i)), status(i));
      EnforcedSpec(once[i], primary, secondary, StartList(order(i)), status(i));
    }
  }

  /** After a pass whose writes all succeeded, a second pass issues no write at all. */
  lemma {:induction false} SecondEnforceWritesNothing(adapters: seq<Adapter>, primary: Option<string>, secondary: Option<string>, order: nat -> Option<seq<string>>, status: nat -> nat, again: nat -> nat, n: nat)
    requires forall i :: status(i) == 0
    requires n <= |adapters|
    ensures EnforceWrites(EnforceAll(adapters, primary, secondary, order, status), primary, secondary, order, again, n) == []
  {
    if n > 0 {
      SecondEnforceWritesNothing(adapters, primary, secondary, order, status, again, n - 1);
      var once := EnforceAll(adapters, primary, secondary, order, status);
      var start := StartList(order(n - 1));
      EnforcedSpec(adapters[n - 1], primary, secondary, start, status(n - 1));
      ChangedIffNeedsUpdate(start, primary, secondary);
      assert !NeedsUpdate(once[n - 1].servers, primary, secondary) || !NeedsUpdate(start, primary, secondary) || !Selected(once[n - 1]);
    }
  }

  /**
   * The merge starts from the parameter object's search order, not from the
   * adapter's own servers: with no starting list, the adapter that lacks a
   * policy server is written exactly the policy servers, whatever it held.
   */
  lemma EmptyStartReplacesServers(adapters: seq<Adapter>, i: nat, primary: string, secondary: string, order: nat -> Option<seq<string>>, status: nat -> nat)
    requires i < |adapters| && Selected(adapters[i]) && StartList(order(i)) == []
    requires NeedsUpdate(adapters[i].servers, Some(primary), Some(secondary))
    ensures primary != secondary ==>
      EnforceWriteFor(adapters, i, Some(primary), Some(secondary), order, status) == [Write(i, [primary, secondary], status(i))]
    ensures primary == secondary ==>
      EnforceWriteFor(adapters, i, Some(primary), Some(secondary), order, status) == [Write(i, [primary], status(i))]
  {
    assert InsertPrimary([], Some(primary)) == [primary];
    assert [primary][..1] + [secondary] + [primary][1..] == [primary, secondary];
  }

  /** The DHCP pass writes depend on nothing but which adapters are selected. */
  lemma {:induction false} RevertWritesFollowSelection(a: seq<Adapter>, b: seq<Adapter>, status: nat -> nat, n: nat)
    requires n <= |a| == |b|
    requires forall i :: 0 <= i < |a| ==> Selected(a[i]) == Selected(b[i])
    ensures RevertWrites(a, status, n) == RevertWrites(b, status, n)
  {
    if n > 0 {
      RevertWritesFollowSelection(a, b, status, n - 1);
    }
  }

  /** Reverting twice gives the adapters reverting once gives, and the same writes. */
  lemma RevertIdempotent(adapters: seq<Adapter>, dhcp: nat -> seq<string>, status: nat -> nat, n: nat)
    requires n <= |adapters|
    ensures RevertAll(RevertAll(adapters, dhcp, status), dhcp, status) == RevertAll(adapters, dhcp, status)
    ensures RevertWrites(RevertAll(adapters, dhcp, status), status, n) == RevertWrites(adapters, status, n)
  {
    var once := RevertAll(adapters, dhcp, status);
    assert forall i :: 0 <= i < |adapters| ==> Reverted(once[i], dhcp(i), status(i)) == once[i];
    RevertWritesFollowSelection(once, adapters, status, n);
  }

  /**
   * The enforce pass reads the addresses DHCP handed out after a revert: when
   * they already hold every policy server, the reverted adapter is not
   * rewritten, and when they lack one, an adapter whose starting list lacks
   * one too is.
   */
  lemma EnforceAfterRevert(a: Adapter, dhcp: seq<string>, primary: Option<string>, secondary: Option<string>, start: seq<string>, status: nat, again: nat)
    requires Selected(a) && status == 0
    ensures !NeedsUpdate(dhcp, primary, secondary) ==>
      Enforced(Reverted(a, dhcp, status), primary, secondary, start, again) == Reverted(a, dhcp, status)
    ensures NeedsUpdate(dhcp, primary, secondary) && NeedsUpdate(start, primary, secondary) && again == 0 ==>
      Enforced(Reverted(a, dhcp, status), primary, secondary, start, again).servers == Merge(start, primary, secondary).servers
  {
    ChangedIffNeedsUpdate(start, primary, secondary);
  }
}

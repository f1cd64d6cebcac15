/**
 * The pruning of audit log entries: by age, and to a number of entries per tenant. The database stamps
 * entries in microseconds; a stamp that the service reads back is a Date, in whole milliseconds.
 */
module AuditLog {
  import opened Ordering

  datatype Row = Row(id: string, tenant: string, timestamp: int)

  /** The stamp as it is read back: cut off to milliseconds. */
  function ReadBack(timestamp: int): (cut: int)
    ensures cut <= timestamp < cut + 1000 && cut % 1000 == 0
  {
    timestamp - timestamp % 1000
  }

  lemma ReadBackMonotone(a: int, b: int)
    ensures a <= b ==> ReadBack(a) <= ReadBack(b)
    ensures ReadBack(a) >= b ==> a >= b
  {
  }

  function OfTenant(rows: set<Row>, tenant: string): set<Row> {
    set r | r in rows && r.tenant == tenant
  }

  /** The entries of the same tenant that are at least as new, the entry itself among them. */
  function AtLeastAsNew(rows: set<Row>, r: Row): set<Row> {
    set s | s in rows && s.tenant == r.tenant && s.timestamp >= r.timestamp
  }

  function Newer(rows: set<Row>, r: Row): set<Row> {
    set s | s in rows && s.tenant == r.tenant && s.timestamp > r.timestamp
  }

  /** The entries of the same tenant that are at least as new even when read back. */
  function AsNewReadBack(rows: set<Row>, r: Row): set<Row> {
    set s | s in rows && s.tenant == r.tenant && ReadBack(s.timestamp) >= r.timestamp
  }

  /** What pruning keeps: the entries that at most `n` entries of their tenant match in newness when read back. */
  function Pruned(rows: set<Row>, n: nat): set<Row> {
    set r | r in rows && |AsNewReadBack(rows, r)| <= n
  }

  /** Pruning done for some of the tenants. */
  function PrunedFor(rows: set<Row>, n: nat, tenants: set<string>): set<Row> {
    set r | r in rows && (r.tenant in tenants ==> |AsNewReadBack(rows, r)| <= n)
  }

  function Retained(rows: set<Row>, cutoff: int): set<Row> {
    set r | r in rows && r.timestamp >= cutoff
  }

  lemma SubsetSize<T>(a: set<T>, b: set<T>)
    requires a <= b
    ensures |a| <= |b|
  {
    assert |b - a| == |b| - |a|;
  }

  // ---- The entry at an offset -----------------------------------------------------------

  /** A tenant's entries, newest first; entries of the same time come in any order. */
  ghost predicate NewestFirst(list: seq<Row>, tenant: string, rows: set<Row>) {
    && Distinct(list) && Elements(list) == OfTenant(rows, tenant)
    && forall i, j :: 0 <= i < j < |list| ==> list[i].timestamp >= list[j].timestamp
  }

  /** `r` can stand at offset `n` of such a list. */
  predicate IsAtOffset(rows: set<Row>, n: nat, r: Row) {
    r in rows && |Newer(rows, r)| <= n < |AtLeastAsNew(rows, r)|
  }

  lemma ListPrefix(list: seq<Row>, k: nat)
    requires Distinct(list) && k <= |list|
    ensures |Elements(list[..k])| == k
  {
    DistinctCount(list[..k]);
  }

  lemma OffsetOfList(list: seq<Row>, tenant: string, rows: set<Row>, n: nat)
    requires NewestFirst(list, tenant, rows) && n < |list|
    ensures list[n] in OfTenant(rows, tenant) && IsAtOffset(rows, n, list[n])
  {
    var r := list[n];
    assert r in Elements(list);
    forall s | s in Newer(rows, r)
      ensures s in Elements(list[..n])
    {
      assert s in Elements(list);
      var i :| 0 <= i < |list| && list[i] == s;
      assert list[..n][i] == s;
    }
    forall s | s in Elements(list[..n + 1])
      ensures s in AtLeastAsNew(rows, r)
    {
      var i :| 0 <= i < n + 1 && list[i] == s;
      assert s in Elements(list);
    }
    ListPrefix(list, n);
    ListPrefix(list, n + 1);
    SubsetSize(Newer(rows, r), Elements(list[..n]));
    SubsetSize(Elements(list[..n + 1]), AtLeastAsNew(rows, r));
  }

  lemma {:induction false} NewestExists(s: set<Row>) returns (m: Row)
    requires s != {}
    ensures m in s && forall r :: r in s ==> r.timestamp <= m.timestamp
  {
    var r :| r in s;
    if s == {r} {
      m := r;
    } else {
      assert s == {r} + (s - {r});
      m := NewestExists(s - {r});
      if m.timestamp < r.timestamp {
        m := r;
      }
    }
  }

  lemma {:induction false} ListExists(tenant: string, rows: set<Row>) returns (list: seq<Row>)
    ensures NewestFirst(list, tenant, rows)
    decreases |OfTenant(rows, tenant)|
  {
    var mine := OfTenant(rows, tenant);
    if mine == {} {
      list := [];
    } else {
      var m := NewestExists(mine);
      assert OfTenant(rows - {m}, tenant) == mine - {m};
      var rest := ListExists(tenant, rows - {m});
      list := [m] + rest;
      NewestLeads(tenant, rows, m, rest);
    }
  }

  lemma NewestLeads(tenant: string, rows: set<Row>, m: Row, rest: seq<Row>)
    requires m in OfTenant(rows, tenant) && forall r :: r in OfTenant(rows, tenant) ==> r.timestamp <= m.timestamp
    requires NewestFirst(rest, tenant, rows - {m})
    ensures NewestFirst([m] + rest, tenant, rows)
  {
    forall i | 0 <= i < |rest|
      ensures rest[i] != m && rest[i].timestamp <= m.timestamp
    {
      assert rest[i] in Elements(rest);
    }
    assert Elements([m] + rest) == {m} + Elements(rest);
    assert OfTenant(rows, tenant) == {m} + OfTenant(rows - {m}, tenant);
  }

  // ---- What pruning keeps ---------------------------------------------------------------

  /** Deleting what is not newer than the read-back stamp of the entry at offset `n` is pruning. */
  lemma CutoffIsPruning(rows: set<Row>, n: nat, cutoff: Row, r: Row)
    requires IsAtOffset(rows, n, cutoff) && r in rows && r.tenant == cutoff.tenant
    ensures r.timestamp > ReadBack(cutoff.timestamp) <==> |AsNewReadBack(rows, r)| <= n
  {
    forall s: Row
      ensures s.timestamp <= cutoff.timestamp ==> ReadBack(s.timestamp) <= ReadBack(cutoff.timestamp)
      ensures s.timestamp >= cutoff.timestamp ==> ReadBack(s.timestamp) >= ReadBack(cutoff.timestamp)
    {
      ReadBackMonotone(s.timestamp, cutoff.timestamp);
      ReadBackMonotone(cutoff.timestamp, s.timestamp);
    }
    if r.timestamp > ReadBack(cutoff.timestamp) {
      SubsetSize(AsNewReadBack(rows, r), Newer(rows, cutoff));
    } else {
      SubsetSize(AtLeastAsNew(rows, cutoff), AsNewReadBack(rows, r));
    }
  }

  /** Tenants within the limit keep everything. */
  lemma WithinLimitUntouched(rows: set<Row>, n: nat, tenant: string)
    requires |OfTenant(rows, tenant)| <= n
    ensures OfTenant(Pruned(rows, n), tenant) == OfTenant(rows, tenant)
  {
    forall r | r in OfTenant(rows, tenant)
      ensures |AsNewReadBack(rows, r)| <= n
    {
      SubsetSize(AsNewReadBack(rows, r), OfTenant(rows, tenant));
    }
  }

  lemma KeptIsNewer(list: seq<Row>, tenant: string, rows: set<Row>, n: nat, i: nat)
    requires NewestFirst(list, tenant, rows) && n < |list| && i < |list|
    ensures list[i] in Pruned(rows, n) <==> list[i].timestamp > ReadBack(list[n].timestamp)
  {
    OffsetOfList(list, tenant, rows, n);
    OffsetOfList(list, tenant, rows, i);
    CutoffIsPruning(rows, n, list[n], list[i]);
  }

  /** How many of the entries are newer than the read-back stamp of the one at offset `n`. */
  function KeptLength(list: seq<Row>, n: nat): (k: nat)
    requires n < |list|
    ensures k <= |list|
    ensures forall i :: 0 <= i < k ==> list[i].timestamp > ReadBack(list[n].timestamp)
    ensures k < |list| ==> list[k].timestamp <= ReadBack(list[n].timestamp)
  {
    KeptFrom(list, n, 0)
  }

  function KeptFrom(list: seq<Row>, n: nat, from: nat): (k: nat)
    requires n < |list| && from <= |list|
    ensures from <= k <= |list|
    ensures forall i :: from <= i < k ==> list[i].timestamp > ReadBack(list[n].timestamp)
    ensures k < |list| ==> list[k].timestamp <= ReadBack(list[n].timestamp)
    decreases |list| - from
  {
    if from < |list| && list[from].timestamp > ReadBack(list[n].timestamp) then KeptFrom(list, n, from + 1) else from
  }

  /** Over the limit, a tenant keeps exactly the entries newer than the read-back stamp of the one at offset `n`. */
  lemma KeptEntries(list: seq<Row>, tenant: string, rows: set<Row>, n: nat)
    requires NewestFirst(list, tenant, rows) && n < |list|
    ensures OfTenant(Pruned(rows, n), tenant) == Elements(list[..KeptLength(list, n)])
  {
    var k := KeptLength(list, n);
    var kept := OfTenant(Pruned(rows, n), tenant);
    forall r
      ensures r in kept <==> r in Elements(list[..k])
    {
      if r in kept {
        assert r in Elements(list);
        var i :| 0 <= i < |list| && list[i] == r;
        KeptIsNewer(list, tenant, rows, n, i);
        assert i < k;
        assert list[..k][i] == r;
      }
      if r in list[..k] {
        var i :| 0 <= i < k && list[i] == r;
        KeptIsNewer(list, tenant, rows, n, i);
        assert r in Elements(list);
      }
    }
  }

  /** The stamp at offset `n` is in whole milliseconds, as all stamps of a coarser database are. */
  predicate WholeCut(list: seq<Row>, n: nat) {
    n < |list| ==> list[n].timestamp % 1000 == 0
  }

  /** No two entries on either side of the limit have the same time. */
  predicate CleanCut(list: seq<Row>, n: nat) {
    0 < n < |list| ==> list[n - 1].timestamp != list[n].timestamp
  }

  function Least(m: nat, n: nat): nat {
    if m < n then m else n
  }

  /** Against the limit: the entry at offset `n` goes with the rest exactly when its stamp is read back exactly. */
  lemma LengthAgainstLimit(list: seq<Row>, tenant: string, rows: set<Row>, n: nat)
    requires NewestFirst(list, tenant, rows) && n < |list|
    ensures KeptLength(list, n) <= n <==> WholeCut(list, n)
    ensures KeptLength(list, n) == n <==> WholeCut(list, n) && CleanCut(list, n)
  {
    var k := KeptLength(list, n);
    assert ReadBack(list[n].timestamp) == list[n].timestamp <==> WholeCut(list, n);
  }

  lemma KeptCount(list: seq<Row>, tenant: string, rows: set<Row>, n: nat)
    requires NewestFirst(list, tenant, rows)
    ensures |OfTenant(rows, tenant)| == |list|
    ensures |OfTenant(Pruned(rows, n), tenant)| == if n < |list| then KeptLength(list, n) else |list|
    ensures n >= |list| ==> OfTenant(Pruned(rows, n), tenant) == OfTenant(rows, tenant)
  {
    assert list[..|list|] == list;
    ListPrefix(list, |list|);
    if n < |list| {
      KeptEntries(list, tenant, rows, n);
      ListPrefix(list, KeptLength(list, n));
    } else {
      WithinLimitUntouched(rows, n, tenant);
    }
  }

  /** A tenant ends up within the limit exactly when the stamp at the limit is one of whole milliseconds. */
  lemma AtMostLimit(list: seq<Row>, tenant: string, rows: set<Row>, n: nat)
    requires NewestFirst(list, tenant, rows)
    ensures |OfTenant(Pruned(rows, n), tenant)| <= n <==> WholeCut(list, n)
  {
    KeptCount(list, tenant, rows, n);
    if n < |list| {
      LengthAgainstLimit(list, tenant, rows, n);
    }
  }

  /** Beyond the limit, only entries of the very millisecond at the limit stay. */
  lemma SurplusIsOneMillisecond(list: seq<Row>, tenant: string, rows: set<Row>, n: nat, i: nat)
    requires NewestFirst(list, tenant, rows) && n <= i < |list| && list[i] in Pruned(rows, n)
    ensures ReadBack(list[i].timestamp) == ReadBack(list[n].timestamp)
  {
    KeptIsNewer(list, tenant, rows, n, i);
    if n < i {
      ReadBackMonotone(list[i].timestamp, list[n].timestamp);
    }
  }

  /**
   * "Keep only the newest `n`": the newest `n` entries stay, all of them and no others, exactly when the
   * stamp at the limit is one of whole milliseconds and no tie lies across the limit. With a tie, the whole
   * group of that time goes and fewer than `n` stay; with a fraction of a millisecond, more stay.
   */
  lemma KeepsTheNewest(list: seq<Row>, tenant: string, rows: set<Row>, n: nat)
    requires NewestFirst(list, tenant, rows)
    ensures WholeCut(list, n) && CleanCut(list, n) <==>
      OfTenant(Pruned(rows, n), tenant) == Elements(list[..Least(n, |list|)])
    ensures WholeCut(list, n) && CleanCut(list, n) <==> |OfTenant(Pruned(rows, n), tenant)| == Least(n, |list|)
  {
    assert list[..|list|] == list;
    ListPrefix(list, Least(n, |list|));
    KeptCount(list, tenant, rows, n);
    if n < |list| {
      KeptEntries(list, tenant, rows, n);
      LengthAgainstLimit(list, tenant, rows, n);
    }
  }

  /** A tenant with too many entries, all of one time, loses all of them or none. */
  lemma TiesGoTogether(rows: set<Row>, n: nat, tenant: string, timestamp: int)
    requires n < |OfTenant(rows, tenant)| && forall r :: r in OfTenant(rows, tenant) ==> r.timestamp == timestamp
    ensures OfTenant(Pruned(rows, n), tenant) == if timestamp % 1000 == 0 then {} else OfTenant(rows, tenant)
  {
    forall r | r in OfTenant(rows, tenant)
      ensures AsNewReadBack(rows, r) == if timestamp % 1000 == 0 then OfTenant(rows, tenant) else {}
    {
    }
  }

  /** Two entries of one moment and a limit of one: none is kept. */
  lemma BothNewestAreLost()
    ensures var rows := {Row("a", "t", 7000), Row("b", "t", 7000)}; OfTenant(rows, "t") == rows && Pruned(rows, 1) == {}
  {
    var rows := {Row("a", "t", 7000), Row("b", "t", 7000)};
    forall r | r in rows
      ensures AsNewReadBack(rows, r) == rows
    {
    }
  }

  /** Two entries a microsecond apart and a limit of one: both are kept. */
  lemma BothEntriesStay()
    ensures var rows := {Row("a", "t", 7001), Row("b", "t", 7002)};
      OfTenant(rows, "t") == rows && Pruned(rows, 1) == rows
  {
    var rows := {Row("a", "t", 7001), Row("b", "t", 7002)};
    forall r | r in rows
      ensures AsNewReadBack(rows, r) == {}
    {
    }
  }

  /** A second run deletes nothing. */
  lemma PruningTwice(rows: set<Row>, n: nat)
    ensures Pruned(Pruned(rows, n), n) == Pruned(rows, n)
  {
    forall r | r in Pruned(rows, n)
      ensures |AsNewReadBack(Pruned(rows, n), r)| <= n
    {
      SubsetSize(AsNewReadBack(Pruned(rows, n), r), AsNewReadBack(rows, r));
    }
  }

  /** No entry is deleted while an older one of its tenant, or one of the same time, stays. */
  lemma OldestGoFirst(rows: set<Row>, n: nat, kept: Row, r: Row)
    requires kept in Pruned(rows, n) && r in rows && r.tenant == kept.tenant && r.timestamp >= kept.timestamp
    ensures r in Pruned(rows, n)
  {
    SubsetSize(AsNewReadBack(rows, r), AsNewReadBack(rows, kept));
  }

  /** Deleting by age first does not change which of the remaining entries the limit keeps. */
  lemma LimitsAreIndependent(rows: set<Row>, cutoff: int, n: nat)
    ensures Pruned(Retained(rows, cutoff), n) == Retained(Pruned(rows, n), cutoff)
  {
    forall r | r in Retained(rows, cutoff)
      ensures AsNewReadBack(Retained(rows, cutoff), r) == AsNewReadBack(rows, r)
    {
    }
  }

  /** Young enough and within the limit, each only where it is enabled. */
  predicate Stays(rows: set<Row>, r: Row, retentionDays: int, cutoff: int, maxEntries: int) {
    && (retentionDays > 0 ==> r.timestamp >= cutoff)
    && (maxEntries > 0 ==> |AsNewReadBack(rows, r)| <= maxEntries)
  }

  // ---- The service ----------------------------------------------------------------------

  class AuditLogService {
    var rows: set<Row>

    method Count(tenant: string) returns (n: nat)
      ensures n == |OfTenant(rows, tenant)|
    {
      n := |OfTenant(rows, tenant)|;
    }

    /** ORDER BY timestamp DESC, skip `n`, take 1; entries of one time come in any order. */
    method FindAtOffset(tenant: string, n: nat) returns (r: Row)
      requires n < |OfTenant(rows, tenant)|
      ensures r.tenant == tenant && IsAtOffset(rows, n, r)
    {
      ghost var list := ListExists(tenant, rows);
      assert list[..|list|] == list;
      ListPrefix(list, |list|);
      OffsetOfList(list, tenant, rows, n);
      r :| r in rows && r.tenant == tenant && IsAtOffset(rows, n, r);
    }

    method DeleteUpTo(tenant: string, cutoff: int) returns (affected: nat)
      modifies this
      ensures rows == set r | r in old(rows) && !(r.tenant == tenant && r.timestamp <= cutoff)
      ensures affected == |old(rows)| - |rows|
    {
      var gone := set r | r in rows && r.tenant == tenant && r.timestamp <= cutoff;
      assert rows - gone == set r | r in rows && !(r.tenant == tenant && r.timestamp <= cutoff);
      affected := |gone|;
      assert |rows - gone| == |rows| - |gone|;
      rows := rows - gone;
    }

    method PruneByMaxEntries(maxEntries: nat) returns (total: nat)
      modifies this
      ensures rows == Pruned(old(rows), maxEntries)
      ensures total == |old(rows)| - |rows|
    {
      var tenants := set r | r in rows :: r.tenant;
      ghost var done: set<string> := {};
      total := 0;
      while tenants != {}
        invariant forall r :: r in old(rows) ==> r.tenant in tenants + done
        invariant tenants !! done
        invariant rows == PrunedFor(old(rows), maxEntries, done)
        invariant total == |old(rows)| - |rows|
        decreases |tenants|
      {
        var tenant :| tenant in tenants;
        tenants := tenants - {tenant};
        ghost var before := rows;
        var affected := PruneTenant(tenant, maxEntries);
        total := total + affected;
        OneMoreTenant(old(rows), before, maxEntries, done, tenant);
        done := done + {tenant};
      }
    }

    /** One round of the loop. */
    method PruneTenant(tenant: string, maxEntries: nat) returns (affected: nat)
      modifies this
      ensures rows == PrunedFor(old(rows), maxEntries, {tenant})
      ensures affected == |old(rows)| - |rows|
    {
      affected := 0;
      var count := Count(tenant);
      if count <= maxEntries {
        WithinLimitUntouched(rows, maxEntries, tenant);
        forall r | r in rows && r.tenant == tenant
          ensures |AsNewReadBack(rows, r)| <= maxEntries
        {
          assert r in OfTenant(Pruned(rows, maxEntries), tenant);
        }
        return;
      }
      var cutoff := FindAtOffset(tenant, maxEntries);
      forall r | r in rows && r.tenant == tenant
        ensures r.timestamp > ReadBack(cutoff.timestamp) <==> |AsNewReadBack(rows, r)| <= maxEntries
      {
        CutoffIsPruning(rows, maxEntries, cutoff, r);
      }
      affected := DeleteUpTo(tenant, ReadBack(cutoff.timestamp));
    }

    /** The scheduled job: by age, then to the limit, each unless switched off; `cutoff` is `retentionDays` ago. */
    method PruneOldLogs(retentionDays: int, cutoff: int, maxEntries: int)
      modifies this
      ensures rows == set r | r in old(rows) && Stays(old(rows), r, retentionDays, cutoff, maxEntries)
    {
      if retentionDays > 0 {
        rows := set r | r in rows && !(r.timestamp < cutoff);
        assert rows == Retained(old(rows), cutoff);
        if maxEntries > 0 {
          LimitsAreIndependent(old(rows), cutoff, maxEntries);
        }
      }
      if maxEntries > 0 {
        var total := PruneByMaxEntries(maxEntries);
      }
    }
  }

  /** Pruning another tenant in what is left continues the pruning of the original rows. */
  lemma OneMoreTenant(rows: set<Row>, left: set<Row>, n: nat, done: set<string>, tenant: string)
    requires left == PrunedFor(rows, n, done) && tenant !in done
    ensures PrunedFor(left, n, {tenant}) == PrunedFor(rows, n, done + {tenant})
  {
    forall r | r in rows && r.tenant == tenant
      ensures AsNewReadBack(left, r) == AsNewReadBack(rows, r)
    {
    }
  }
}

/** The migration that flags the newest version of every file, on records written before the flag existed. */
module Backfill {
  import opened Lib

  /** `version` and `latest` may be missing from old records. */
  datatype Record = Record(fileId: string, version: Option<int>, latest: Option<bool>)

  const BATCH := 500

  function Effective(r: Record): int {
    if r.version.Some? then r.version.value else 1
  }

  /** The records that lack the flag, in table order. */
  function Unflagged(records: seq<Record>): (q: seq<Record>)
    ensures |q| <= |records|
    ensures forall r | r in q :: r in records && r.latest.None?
    ensures q == [] <==> forall r | r in records :: r.latest.Some?
  {
    if records == [] then []
    else Unflagged(records[..|records| - 1])
         + if records[|records| - 1].latest.None? then [records[|records| - 1]] else []
  }

  function VersionsOf(records: seq<Record>, fileId: string): (q: seq<Record>)
    ensures forall r :: r in q <==> r in records && r.fileId == fileId
  {
    if records == [] then []
    else VersionsOf(records[..|records| - 1], fileId)
         + if records[|records| - 1].fileId == fileId then [records[|records| - 1]] else []
  }

  /** `max(record.get("version", 1) for record in versions)` */
  function Newest(versions: seq<Record>): (n: int)
    requires versions != []
    ensures forall r | r in versions :: Effective(r) <= n
    ensures exists r :: r in versions && Effective(r) == n
  {
    var last := versions[|versions| - 1];
    if |versions| == 1 then Effective(last)
    else
      var front := versions[..|versions| - 1];
      assert versions == front + [last];
      Max(Newest(front), Effective(last))
  }

  function Max(a: int, b: int): (m: int)
    ensures m >= a && m >= b && (m == a || m == b)
  {
    if a >= b then a else b
  }

  /** A newest version of the record's file: its stored version is the highest effective one. */
  ghost predicate IsNewest(records: seq<Record>, r: Record)
    requires r in records
  {
    r.version == Some(Newest(VersionsOf(records, r.fileId)))
  }

  /** Every flag that is there is right. */
  ghost predicate RightOrMissing(records: seq<Record>) {
    forall r | r in records && r.latest.Some? :: r.latest.value == IsNewest(records, r)
  }

  ghost predicate AllRight(records: seq<Record>) {
    RightOrMissing(records) && forall r | r in records :: r.latest.Some?
  }

  /** Only flags differ, and none was removed. */
  predicate OnlyFlagged(before: seq<Record>, after: seq<Record>) {
    && |before| == |after|
    && forall i | 0 <= i < |before| ::
         && after[i].fileId == before[i].fileId && after[i].version == before[i].version
         && (before[i].latest.Some? ==> after[i].latest.Some?)
  }

  // ---- the two updates -------------------------------------------------------------------------------------------

  /** `update_many({"file_id", "version": newest}, {"is_latest": True})`; a missing version equals nothing. */
  function FlagNewest(records: seq<Record>, fileId: string, newest: int): (after: seq<Record>)
    ensures |after| == |records|
  {
    seq(|records|, i requires 0 <= i < |records| =>
      if records[i].fileId == fileId && records[i].version == Some(newest) then records[i].(latest := Some(true))
      else records[i])
  }

  /** `update_many({"file_id", "is_latest": {"$exists": False}}, {"is_latest": False})` */
  function FlagRest(records: seq<Record>, fileId: string): (after: seq<Record>)
    ensures |after| == |records|
  {
    seq(|records|, i requires 0 <= i < |records| =>
      if records[i].fileId == fileId && records[i].latest.None? then records[i].(latest := Some(false)) else records[i])
  }

  predicate SameVersions(a: seq<Record>, b: seq<Record>) {
    |a| == |b| && forall i | 0 <= i < |a| :: a[i].fileId == b[i].fileId && a[i].version == b[i].version
  }

  lemma {:induction false} SameVersionsOf(a: seq<Record>, b: seq<Record>, fileId: string)
    requires SameVersions(a, b)
    ensures SameVersions(VersionsOf(a, fileId), VersionsOf(b, fileId))
  {
    if a != [] {
      SameVersionsOf(a[..|a| - 1], b[..|b| - 1], fileId);
    }
  }

  lemma {:induction false} SameNewest(a: seq<Record>, b: seq<Record>)
    requires SameVersions(a, b) && a != []
    ensures Newest(a) == Newest(b)
  {
    if |a| > 1 {
      SameNewest(a[..|a| - 1], b[..|b| - 1]);
    }
  }

  /** Changing flags does not change which version is newest. */
  lemma NewestStays(before: seq<Record>, after: seq<Record>, i: nat)
    requires OnlyFlagged(before, after) && i < |before|
    ensures before[i] in before && after[i] in after
    ensures IsNewest(after, after[i]) <==> IsNewest(before, before[i])
  {
    hide Newest, VersionsOf;
    SameVersionsOf(before, after, before[i].fileId);
    assert before[i] in VersionsOf(before, before[i].fileId);
    SameNewest(VersionsOf(before, before[i].fileId), VersionsOf(after, before[i].fileId));
  }

  lemma FlagNewestIsRight(records: seq<Record>, fileId: string)
    requires RightOrMissing(records) && VersionsOf(records, fileId) != []
    ensures var after := FlagNewest(records, fileId, Newest(VersionsOf(records, fileId)));
      OnlyFlagged(records, after) && RightOrMissing(after) && NewestAreFlagged(after, fileId)
  {
    hide Newest, VersionsOf, IsNewest;
    var newest := Newest(VersionsOf(records, fileId));
    var after := FlagNewest(records, fileId, newest);
    forall i | 0 <= i < |after|
      ensures after[i] in after
      ensures after[i].latest.Some? ==> after[i].latest.value == IsNewest(after, after[i])
      ensures after[i].fileId == fileId && IsNewest(after, after[i]) ==> after[i].latest.Some?
    {
      NewestStays(records, after, i);
      NewestMeans(records, records[i]);
    }
  }

  lemma NewestMeans(records: seq<Record>, r: Record)
    requires r in records
    ensures r in VersionsOf(records, r.fileId)
    ensures IsNewest(records, r) <==> r.version == Some(Newest(VersionsOf(records, r.fileId)))
  {
  }

  /** The newest versions of the file have their flag. */
  ghost predicate NewestAreFlagged(records: seq<Record>, fileId: string) {
    forall r | r in records && r.fileId == fileId && IsNewest(records, r) :: r.latest.Some?
  }

  ghost predicate FileIsFlagged(records: seq<Record>, fileId: string) {
    forall r | r in records && r.fileId == fileId :: r.latest.Some?
  }

  lemma FlagRestIsRight(records: seq<Record>, fileId: string)
    requires RightOrMissing(records) && NewestAreFlagged(records, fileId)
    ensures var after := FlagRest(records, fileId);
      OnlyFlagged(records, after) && RightOrMissing(after) && FileIsFlagged(after, fileId)
  {
    hide Newest, VersionsOf;
    var after := FlagRest(records, fileId);
    forall i | 0 <= i < |after|
      ensures after[i].latest.Some? ==> after[i].latest.value == IsNewest(after, after[i])
    {
      NewestStays(records, after, i);
    }
  }

  function UnflaggedCount(records: seq<Record>): nat {
    if records == [] then 0
    else UnflaggedCount(records[..|records| - 1]) + if records[|records| - 1].latest.None? then 1 else 0
  }

  lemma {:induction false} UnflaggedAreCounted(records: seq<Record>)
    ensures |Unflagged(records)| == UnflaggedCount(records)
  {
    if records != [] {
      UnflaggedAreCounted(records[..|records| - 1]);
    }
  }

  lemma {:induction false} NoMoreUnflagged(before: seq<Record>, after: seq<Record>)
    requires OnlyFlagged(before, after)
    ensures UnflaggedCount(after) <= UnflaggedCount(before)
  {
    if before != [] {
      NoMoreUnflagged(before[..|before| - 1], after[..|after| - 1]);
    }
  }

  lemma {:induction false} CountDrops(before: seq<Record>, after: seq<Record>, i: nat)
    requires OnlyFlagged(before, after) && i < |before| && before[i].latest.None? && after[i].latest.Some?
    ensures UnflaggedCount(after) < UnflaggedCount(before)
    decreases |before|
  {
    var front, ahead := before[..|before| - 1], after[..|after| - 1];
    if i == |before| - 1 {
      NoMoreUnflagged(front, ahead);
    } else {
      CountDrops(front, ahead, i);
    }
  }

  lemma FewerUnflagged(before: seq<Record>, after: seq<Record>, i: nat)
    requires OnlyFlagged(before, after) && i < |before| && before[i].latest.None? && after[i].latest.Some?
    ensures |Unflagged(after)| < |Unflagged(before)|
  {
    UnflaggedAreCounted(before);
    UnflaggedAreCounted(after);
    CountDrops(before, after, i);
  }

  lemma OnlyFlaggedTransitive(a: seq<Record>, b: seq<Record>, c: seq<Record>)
    requires OnlyFlagged(a, b) && OnlyFlagged(b, c)
    ensures OnlyFlagged(a, c)
  {
  }

  predicate OthersSame(before: seq<Record>, after: seq<Record>, fileId: string) {
    |before| == |after| && forall i | 0 <= i < |before| && before[i].fileId != fileId :: after[i] == before[i]
  }

  ghost predicate HasUnflagged(records: seq<Record>, fileId: string) {
    exists i | 0 <= i < |records| :: records[i].fileId == fileId && records[i].latest.None?
  }

  lemma BatchIsUnflagged(records: seq<Record>, batch: seq<Record>)
    requires forall r | r in batch :: r in records && r.latest.None?
    ensures forall r | r in batch :: HasUnflagged(records, r.fileId)
  {
  }

  lemma OneIsUnflagged(records: seq<Record>, fileId: string)
    requires HasUnflagged(records, fileId)
    ensures VersionsOf(records, fileId) != [] && |Unflagged(records)| >= 1
  {
  }

  lemma FileDone(before: seq<Record>, after: seq<Record>, f: string, files: set<string>)
    requires OnlyFlagged(before, after) && OthersSame(before, after, f)
    requires HasUnflagged(before, f) && FileIsFlagged(after, f)
    requires forall g | g in files :: HasUnflagged(before, g)
    ensures |Unflagged(after)| < |Unflagged(before)|
    ensures forall g | g in files - {f} :: HasUnflagged(after, g)
  {
    var i :| 0 <= i < |before| && before[i].fileId == f && before[i].latest.None?;
    assert after[i] in after;
    FewerUnflagged(before, after, i);
    forall g | g in files - {f}
      ensures HasUnflagged(after, g)
    {
      var j :| 0 <= j < |before| && before[j].fileId == g && before[j].latest.None?;
      assert after[j] == before[j];
    }
  }

  lemma FlagNewestIsLocal(records: seq<Record>, fileId: string, newest: int)
    ensures OthersSame(records, FlagNewest(records, fileId, newest), fileId)
    ensures OthersSame(records, FlagRest(FlagNewest(records, fileId, newest), fileId), fileId)
  {
  }

  // ---- the migration ------------------------------------------------------------------------------------------------

  class Files {
    var records: seq<Record>

    /** One file's two updates; the process may die before either (`lifetime` counts the updates it lives for). */
    method FlagFile(fileId: string, lifetime: nat) returns (left: Option<nat>)
      requires RightOrMissing(records) && VersionsOf(records, fileId) != []
      modifies this
      ensures OnlyFlagged(old(records), records) && RightOrMissing(records)
      ensures OthersSame(old(records), records, fileId)
      ensures left.Some? ==> FileIsFlagged(records, fileId) && left.value + 2 == lifetime
      ensures lifetime >= 2 ==> left.Some?
    {
      hide Newest, VersionsOf, IsNewest, FlagNewest, FlagRest;
      hide RightOrMissing, OnlyFlagged, NewestAreFlagged, FileIsFlagged;
      NothingFlagged(records);
      FlagNewestIsLocal(records, fileId, Newest(VersionsOf(records, fileId)));
      if lifetime == 0 {
        return None;
      }
      FlagNewestIsRight(records, fileId);
      records := FlagNewest(records, fileId, Newest(VersionsOf(records, fileId)));
      if lifetime == 1 {
        return None;
      }
      FlagRestIsRight(records, fileId);
      OnlyFlaggedTransitive(old(records), records, FlagRest(records, fileId));
      records := FlagRest(records, fileId);
      left := Some(lifetime - 2);
    }

    /** `_flag_latest_file_versions`: ends with every flag right; interrupted anywhere, it leaves every flag
        it wrote right, so it can be run again. */
    method FlagLatest(lifetime: nat) returns (finished: bool)
      requires RightOrMissing(records)
      modifies this
      ensures OnlyFlagged(old(records), records) && RightOrMissing(records)
      ensures finished ==> AllRight(records)
      ensures lifetime >= 2 * |Unflagged(old(records))| ==> finished
    {
      hide Newest, IsNewest, RightOrMissing, OnlyFlagged;
      var left: nat := lifetime;
      NothingFlagged(records);
      while Unflagged(records) != []
        invariant OnlyFlagged(old(records), records) && RightOrMissing(records)
        invariant lifetime >= 2 * |Unflagged(old(records))| ==> left >= 2 * |Unflagged(records)|
        decreases |Unflagged(records)|
      {
        var batch := Unflagged(records)[..Min(BATCH, |Unflagged(records)|)];
        ghost var before := records;
        var r := FlagBatch(batch, left);
        OnlyFlaggedTransitive(old(records), before, records);
        if r.None? {
          return false;
        }
        left := r.value;
      }
      finished := true;
    }

    /** Each file of the batch once. */
    method FlagBatch(batch: seq<Record>, lifetime: nat) returns (left: Option<nat>)
      requires RightOrMissing(records) && batch != [] && forall r | r in batch :: r in records && r.latest.None?
      modifies this
      ensures RightOrMissing(records) && OnlyFlagged(old(records), records)
      ensures left.Some? ==> |Unflagged(records)| < |Unflagged(old(records))|
      ensures lifetime >= 2 * |Unflagged(old(records))| ==> left.Some? && left.value >= 2 * |Unflagged(records)|
    {
      hide Newest, IsNewest, VersionsOf, Unflagged;
      hide RightOrMissing, FileIsFlagged, OnlyFlagged, OthersSame, HasUnflagged;
      var remaining := set r | r in batch :: r.fileId;
      ghost var first := batch[0];
      assert first.fileId in remaining;
      BatchIsUnflagged(records, batch);
      var budget: nat := lifetime;
      NothingFlagged(records);
      while remaining != {}
        invariant RightOrMissing(records) && OnlyFlagged(old(records), records)
        invariant forall f | f in remaining :: HasUnflagged(records, f)
        invariant |Unflagged(records)| <= |Unflagged(old(records))|
        invariant first.fileId in remaining || |Unflagged(records)| < |Unflagged(old(records))|
        invariant lifetime >= 2 * |Unflagged(old(records))| ==> budget >= 2 * |Unflagged(records)|
      {
        var f :| f in remaining;
        ghost var before := records;
        OneIsUnflagged(records, f);
        var r := FlagFile(f, budget);
        OnlyFlaggedTransitive(old(records), before, records);
        if r.None? {
          return None;
        }
        FileDone(before, records, f, remaining);
        budget := r.value;
        remaining := remaining - {f};
      }
      left := Some(budget);
    }
  }

  lemma NothingFlagged(records: seq<Record>)
    ensures OnlyFlagged(records, records)
  {
  }

  function Min(a: nat, b: nat): nat {
    if a <= b then a else b
  }

  // ---- what the flags end up as -----------------------------------------------------------------------------------

  /** The outcome does not depend on where earlier attempts were interrupted. */
  lemma OutcomeIsDetermined(a: seq<Record>, b: seq<Record>)
    requires SameVersions(a, b) && AllRight(a) && AllRight(b)
    ensures a == b
  {
    hide Newest, VersionsOf, IsNewest;
    forall i | 0 <= i < |a|
      ensures a[i] == b[i]
    {
      assert a[i] in a && b[i] in b;
      SameNewestOf(a, b, i);
    }
  }

  lemma SameNewestOf(a: seq<Record>, b: seq<Record>, i: nat)
    requires SameVersions(a, b) && i < |a| && a[i] in a && b[i] in b
    ensures IsNewest(a, a[i]) <==> IsNewest(b, b[i])
  {
    hide Newest, VersionsOf;
    SameVersionsOf(a, b, a[i].fileId);
    assert a[i] in VersionsOf(a, a[i].fileId);
    SameNewest(VersionsOf(a, a[i].fileId), VersionsOf(b, a[i].fileId));
  }

  predicate HasCurrent(records: seq<Record>, fileId: string) {
    exists r | r in records :: r.fileId == fileId && r.latest == Some(true)
  }

  predicate HasNumbered(records: seq<Record>, fileId: string) {
    exists r | r in records :: r.fileId == fileId && r.version.Some?
  }

  /** A record without a version is read as version 1 but is never matched as version 1: the migration gives
      a file a current version exactly when at least one of its records stores a version number. */
  lemma CurrentNeedsANumber(records: seq<Record>, fileId: string)
    requires AllRight(records) && forall r | r in records && r.version.Some? :: r.version.value >= 1
    ensures HasCurrent(records, fileId) <==> HasNumbered(records, fileId)
  {
    hide Newest, VersionsOf, IsNewest;
    if r :| r in records && r.fileId == fileId && r.latest == Some(true) {
      NewestMeans(records, r);
    }
    if r :| r in records && r.fileId == fileId && r.version.Some? {
      NewestMeans(records, r);
      var n := HighestIsStored(VersionsOf(records, fileId), r);
      assert n in records && n.fileId == fileId;
      NewestMeans(records, n);
    }
  }

  lemma HighestIsStored(versions: seq<Record>, r: Record) returns (n: Record)
    requires r in versions && r.version.Some?
    requires forall q | q in versions && q.version.Some? :: q.version.value >= 1
    ensures n in versions && n.version == Some(Newest(versions))
  {
    n :| n in versions && Effective(n) == Newest(versions);
    if n.version.None? {
      assert Effective(r) <= Newest(versions) == 1;
      n := r;
    }
  }

  /** The case the migration misses: a lone record from before versions were stored ends up hidden. */
  lemma UnnumberedFileIsHidden(fileId: string)
    ensures var lone := [Record(fileId, None, None)];
      RightOrMissing(lone) && forall after | OnlyFlagged(lone, after) && AllRight(after) ::
        after == [Record(fileId, None, Some(false))] && !HasCurrent(after, fileId)
  {
  }

  /** No two records of one file store the same version: the unique index. */
  predicate UniqueVersions(records: seq<Record>) {
    forall i, j | 0 <= i < j < |records| && records[i].version.Some? && records[i].fileId == records[j].fileId ::
      records[i].version != records[j].version
  }

  /** With the unique index, at most one record of a file is flagged. */
  lemma AtMostOneCurrent(records: seq<Record>, i: nat, j: nat)
    requires AllRight(records) && UniqueVersions(records) && i < j < |records|
    requires records[i].fileId == records[j].fileId
    ensures !(records[i].latest == Some(true) && records[j].latest == Some(true))
  {
  }
}

/** The same migration run by several workers at once, and while files are uploaded. */
module BackfillRuns {
  import opened Lib
  import opened Backfill

  /** Where a worker is with one file: it has read the file's newest version, or has also flagged it. */
  datatype Migrator = Away | HasRead(fileId: string, newest: int) | HasFlagged(fileId: string)

  datatype State = State(records: seq<Record>, workers: seq<Migrator>)

  /** The steps of the workers, and the two updates of an upload. A worker may `Stop` anywhere. */
  datatype Event =
    | Read(w: nat, fileId: string)
    | SetNewest(w: nat)
    | SetRest(w: nat)
    | Stop(w: nat)
    | Insert(fileId: string, version: int)
    | Demote(fileId: string, version: int)

  predicate IsUpload(e: Event) {
    e.Insert? || e.Demote?
  }

  predicate Enabled(s: State, e: Event) {
    && (!IsUpload(e) ==> e.w < |s.workers|)
    && match e
      case Read(w, fileId) => s.workers[w].Away? && VersionsOf(s.records, fileId) != []
      case SetNewest(w) => s.workers[w].HasRead?
      case SetRest(w) => s.workers[w].HasFlagged?
      case _ => true
  }

  /** `update_many({"file_id", "is_latest": True, "version": {"$lt": version}}, {"is_latest": False})` */
  function DemoteOlder(records: seq<Record>, fileId: string, version: int): (after: seq<Record>)
    ensures |after| == |records|
  {
    seq(|records|, i requires 0 <= i < |records| =>
      var r := records[i];
      if r.fileId == fileId && r.latest == Some(true) && r.version.Some? && r.version.value < version
      then r.(latest := Some(false)) else r)
  }

  /** An upload takes the flag from exactly the file's flagged records with a lower version. */
  lemma DemotedMeans(records: seq<Record>, fileId: string, version: int, i: nat)
    requires i < |records|
    ensures var before, after := records[i], DemoteOlder(records, fileId, version)[i];
      if before.fileId == fileId && before.latest == Some(true) && before.version != None
         && before.version.value < version
      then after == before.(latest := Some(false)) else after == before
  {
  }

  function Next(s: State, e: Event): State
    requires Enabled(s, e)
  {
    match e
    case Read(w, fileId) => s.(workers := s.workers[w := HasRead(fileId, Newest(VersionsOf(s.records, fileId)))])
    case SetNewest(w) =>
      var m := s.workers[w];
      State(FlagNewest(s.records, m.fileId, m.newest), s.workers[w := HasFlagged(m.fileId)])
    case SetRest(w) => State(FlagRest(s.records, s.workers[w].fileId), s.workers[w := Away])
    case Stop(w) => s.(workers := s.workers[w := Away])
    case Insert(fileId, version) => s.(records := s.records + [Record(fileId, Some(version), Some(true))])
    case Demote(fileId, version) => s.(records := DemoteOlder(s.records, fileId, version))
  }

  predicate IsRun(s: State, es: seq<Event>)
    decreases |es|
  {
    es == [] || (Enabled(s, es[0]) && IsRun(Next(s, es[0]), es[1..]))
  }

  function After(s: State, es: seq<Event>): State
    requires IsRun(s, es)
    decreases |es|
  {
    if es == [] then s else After(Next(s, es[0]), es[1..])
  }

  // ---- several workers ------------------------------------------------------------------------------

  /** What a worker goes by is still so. */
  ghost predicate InStep(records: seq<Record>, m: Migrator) {
    match m
    case Away => true
    case HasRead(fileId, newest) => VersionsOf(records, fileId) != [] && newest == Newest(VersionsOf(records, fileId))
    case HasFlagged(fileId) => NewestAreFlagged(records, fileId)
  }

  ghost predicate Inv(s: State) {
    RightOrMissing(s.records) && forall w | 0 <= w < |s.workers| :: InStep(s.records, s.workers[w])
  }

  lemma FlaggedStay(before: seq<Record>, after: seq<Record>, fileId: string)
    requires OnlyFlagged(before, after) && NewestAreFlagged(before, fileId)
    ensures NewestAreFlagged(after, fileId)
  {
    hide IsNewest;
    forall i | 0 <= i < |after| && after[i].fileId == fileId && IsNewest(after, after[i])
      ensures after[i].latest.Some?
    {
      NewestStays(before, after, i);
      assert before[i] in before;
    }
  }

  /** No one's flags put another worker out of step. */
  lemma StaysInStep(before: seq<Record>, after: seq<Record>, m: Migrator)
    requires OnlyFlagged(before, after) && InStep(before, m)
    ensures InStep(after, m)
  {
    hide Newest, VersionsOf, NewestAreFlagged, OnlyFlagged;
    match m
    case Away =>
    case HasRead(fileId, newest) =>
      SameVersionsOfFlagged(before, after, fileId);
    case HasFlagged(fileId) => FlaggedStay(before, after, fileId);
  }

  lemma SameVersionsOfFlagged(before: seq<Record>, after: seq<Record>, fileId: string)
    requires OnlyFlagged(before, after) && VersionsOf(before, fileId) != []
    ensures VersionsOf(after, fileId) != []
    ensures Newest(VersionsOf(after, fileId)) == Newest(VersionsOf(before, fileId))
  {
    hide Newest, VersionsOf;
    SameVersionsOf(before, after, fileId);
    SameNewest(VersionsOf(before, fileId), VersionsOf(after, fileId));
  }

  /** One worker's step on the records. */
  lemma WorkersStep(s: State, e: Event)
    requires Inv(s) && Enabled(s, e) && !IsUpload(e)
    ensures var t := Next(s, e);
      OnlyFlagged(s.records, t.records) && RightOrMissing(t.records) && InStep(t.records, t.workers[e.w])
  {
    hide Newest, VersionsOf, IsNewest, RightOrMissing, NewestAreFlagged, OnlyFlagged, FlagNewest, FlagRest;
    assert InStep(s.records, s.workers[e.w]);
    NothingFlagged(s.records);
    if e.SetNewest? {
      FlagNewestIsRight(s.records, s.workers[e.w].fileId);
    } else if e.SetRest? {
      FlagRestIsRight(s.records, s.workers[e.w].fileId);
    }
  }

  lemma StepKeepsInv(s: State, e: Event)
    requires Inv(s) && Enabled(s, e) && !IsUpload(e)
    ensures Inv(Next(s, e)) && OnlyFlagged(s.records, Next(s, e).records)
  {
    hide RightOrMissing, InStep, OnlyFlagged;
    var t := Next(s, e);
    WorkersStep(s, e);
    forall w | 0 <= w < |t.workers|
      ensures InStep(t.records, t.workers[w])
    {
      if w != e.w {
        StaysInStep(s.records, t.records, s.workers[w]);
      }
    }
  }

  /** However the workers interleave and wherever they stop, every flag that is there is right, and
      once none is missing the flags are those a single worker would have left. */
  lemma {:induction false} WorkersAgree(s: State, es: seq<Event>)
    requires Inv(s) && IsRun(s, es) && forall e | e in es :: !IsUpload(e)
    ensures Inv(After(s, es)) && OnlyFlagged(s.records, After(s, es).records)
    ensures Unflagged(After(s, es).records) == [] ==>
      AllRight(After(s, es).records)
      && forall alone | SameVersions(s.records, alone) && AllRight(alone) :: After(s, es).records == alone
    decreases |es|
  {
    hide Inv, RightOrMissing, OnlyFlagged;
    NothingFlagged(s.records);
    if es != [] {
      StepKeepsInv(s, es[0]);
      var t := Next(s, es[0]);
      WorkersAgree(t, es[1..]);
      OnlyFlaggedTransitive(s.records, t.records, After(s, es).records);
    }
    Finished(s.records, After(s, es));
  }

  lemma Finished(start: seq<Record>, t: State)
    requires Inv(t) && OnlyFlagged(start, t.records)
    ensures Unflagged(t.records) == [] ==>
      AllRight(t.records) && forall alone | SameVersions(start, alone) && AllRight(alone) :: t.records == alone
  {
    hide Newest, VersionsOf, IsNewest, InStep;
    if Unflagged(t.records) == [] {
      assert AllRight(t.records) by { hide RightOrMissing; }
      forall alone | SameVersions(start, alone) && AllRight(alone)
        ensures t.records == alone
      {
        hide AllRight, RightOrMissing;
        OutcomeIsDetermined(t.records, alone);
      }
    }
  }

  // ---- an upload in between ---------------------------------------------------------------------------

  predicate Stores(records: seq<Record>, fileId: string, version: int) {
    exists r | r in records :: r.fileId == fileId && r.version == Some(version)
  }

  /** Flagging what was read as newest keeps the flags right exactly if it still is the newest, or no
      record stores that number. */
  lemma StaleReadIsWrong(records: seq<Record>, fileId: string, newest: int)
    requires RightOrMissing(records) && VersionsOf(records, fileId) != []
    ensures RightOrMissing(FlagNewest(records, fileId, newest)) <==>
      newest == Newest(VersionsOf(records, fileId)) || !Stores(records, fileId, newest)
  {
    hide Newest, VersionsOf, IsNewest, RightOrMissing, NewestAreFlagged, OnlyFlagged;
    var after := FlagNewest(records, fileId, newest);
    if newest == Newest(VersionsOf(records, fileId)) {
      FlagNewestIsRight(records, fileId);
    } else if Stores(records, fileId, newest) {
      StaleIsWrong(records, fileId, newest);
    } else {
      assert forall i | 0 <= i < |records| :: records[i] in records;
      assert after == records;
    }
  }

  lemma StaleIsWrong(records: seq<Record>, fileId: string, newest: int)
    requires VersionsOf(records, fileId) != [] && newest != Newest(VersionsOf(records, fileId))
    requires Stores(records, fileId, newest)
    ensures !RightOrMissing(FlagNewest(records, fileId, newest))
  {
    hide Newest, VersionsOf, IsNewest;
    var after := FlagNewest(records, fileId, newest);
    var r :| r in records && r.fileId == fileId && r.version == Some(newest);
    var i :| 0 <= i < |records| && records[i] == r;
    SameVersionsOf(records, after, fileId);
    SameNewest(VersionsOf(records, fileId), VersionsOf(after, fileId));
    assert after[i] in after && after[i].latest == Some(true);
    NewestMeans(after, after[i]);
  }

  /** The input it happens on, for any file: a worker reads the newest version, an upload stores the next
      one and demotes the older ones, and the worker flags what it read. Two versions are current, and
      as no flag is missing the migration is over. */
  lemma UploadDuringBackfill(fileId: string, version: int)
    ensures var s := State([Record(fileId, Some(version), None)], [Away]);
      var es := [Read(0, fileId), Insert(fileId, version + 1), Demote(fileId, version + 1), SetNewest(0), SetRest(0)];
      && IsRun(s, es)
      && After(s, es).records
         == [Record(fileId, Some(version), Some(true)), Record(fileId, Some(version + 1), Some(true))]
      && Unflagged(After(s, es).records) == []
  {
    var old1, new1 := Record(fileId, Some(version), None), Record(fileId, Some(version + 1), Some(true));
    var s := State([old1], [Away]);
    assert [old1][..0] == [];
    assert VersionsOf([old1], fileId) == [old1];
    var s1 := State([old1], [HasRead(fileId, version)]);
    assert Next(s, Read(0, fileId)) == s1;
    var s2 := s1.(records := [old1, new1]);
    assert Next(s1, Insert(fileId, version + 1)) == s2 && Next(s2, Demote(fileId, version + 1)) == s2;
    var flagged := [old1.(latest := Some(true)), new1];
    var s3 := State(flagged, [HasFlagged(fileId)]);
    assert Next(s2, SetNewest(0)) == s3;
    var s4 := State(flagged, [Away]);
    assert Next(s3, SetRest(0)) == s4;
    RunOf(s3, s4, SetRest(0), [], s4);
    RunOf(s2, s3, SetNewest(0), [SetRest(0)], s4);
    RunOf(s2, s2, Demote(fileId, version + 1), [SetNewest(0), SetRest(0)], s4);
    RunOf(s1, s2, Insert(fileId, version + 1), [Demote(fileId, version + 1), SetNewest(0), SetRest(0)], s4);
    RunOf(s, s1, Read(0, fileId),
          [Insert(fileId, version + 1), Demote(fileId, version + 1), SetNewest(0), SetRest(0)], s4);
  }

  lemma RunOf(s: State, t: State, e: Event, es: seq<Event>, end: State)
    requires Enabled(s, e) && Next(s, e) == t && IsRun(t, es) && After(t, es) == end
    ensures IsRun(s, [e] + es) && After(s, [e] + es) == end
  {
    assert ([e] + es)[1..] == es;
  }
}

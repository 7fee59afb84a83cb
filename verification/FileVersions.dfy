/** Versions of one file under concurrent uploads: who is numbered what, and which record is flagged latest. */
module FileVersions {
  import opened Lib

  datatype Rec = Rec(latest: bool, live: bool)

  /** Where an upload stands: the version it read as newest (0 for a new file), or the one it inserted
      and after which it has still to demote the older ones. */
  datatype Upload = Idle | HasRead(newest: nat) | Inserted(version: nat)

  /** `demoted` remembers the versions whose demotion has run; nothing in the program reads it. */
  datatype State = State(versions: map<nat, Rec>, uploads: seq<Upload>, demoted: set<nat>)

  /** One atomic step. `Crash` is a process that dies between its insert and its demotion, or before. */
  datatype Event =
    | Begin(u: nat)
    | ReadNewest(u: nat)
    | Insert(u: nat)
    | Demote(u: nat)
    | Crash(u: nat)
    | SoftDelete

  predicate IsNewestLive(versions: map<nat, Rec>, v: nat) {
    v in versions && versions[v].live && forall w | w in versions && versions[w].live :: w <= v
  }

  predicate AnyLive(versions: map<nat, Rec>) {
    exists v | v in versions :: versions[v].live
  }

  predicate Enabled(s: State, e: Event) {
    match e
    case SoftDelete => true
    case Begin(u) => u < |s.uploads| && s.uploads[u].Idle?
    case ReadNewest(u) => u < |s.uploads| && s.uploads[u].Idle? && AnyLive(s.versions)
    case Insert(u) => u < |s.uploads| && s.uploads[u].HasRead?
    case Demote(u) => u < |s.uploads| && s.uploads[u].Inserted?
    case Crash(u) => u < |s.uploads|
  }

  function DemoteBelow(versions: map<nat, Rec>, v: nat): map<nat, Rec> {
    map w | w in versions :: if w < v then versions[w].(latest := false) else versions[w]
  }

  function DeleteAll(versions: map<nat, Rec>): map<nat, Rec> {
    map w | w in versions :: versions[w].(live := false)
  }

  /** The insert fails when the (file, version) pair is taken, and the upload ends. */
  function DoInsert(s: State, u: nat): State
    requires Enabled(s, Insert(u))
  {
    var v := s.uploads[u].newest + 1;
    if v in s.versions then s.(uploads := s.uploads[u := Idle])
    else s.(versions := s.versions[v := Rec(true, true)], uploads := s.uploads[u := Inserted(v)])
  }

  /** The step as a relation: what is read is the newest live version. */
  ghost predicate Step(s: State, e: Event, t: State) {
    Enabled(s, e) &&
    match e
    case Begin(u) => t == s.(uploads := s.uploads[u := HasRead(0)])
    case ReadNewest(u) => exists v :: IsNewestLive(s.versions, v) && t == s.(uploads := s.uploads[u := HasRead(v)])
    case Insert(u) => t == DoInsert(s, u)
    case Demote(u) =>
      var v := s.uploads[u].version;
      t == State(DemoteBelow(s.versions, v), s.uploads[u := Idle], s.demoted + {v})
    case Crash(u) => t == s.(uploads := s.uploads[u := Idle])
    case SoftDelete => t == s.(versions := DeleteAll(s.versions))
  }

  ghost predicate Init(s: State) {
    s.versions == map[] && s.demoted == {} && forall u | 0 <= u < |s.uploads| :: s.uploads[u].Idle?
  }

  /** A run, given by all the states it passes through and the events between them. */
  ghost predicate IsRun(states: seq<State>, events: seq<Event>) {
    && |states| == |events| + 1 && Init(states[0])
    && forall i | 0 <= i < |events| :: Step(states[i], events[i], states[i + 1])
  }

  // ---- the invariant ------------------------------------------------------------------------------------------

  /** Versions are numbered 1 to n without gaps. */
  ghost predicate Contiguous(s: State) {
    forall v: nat :: v in s.versions <==> 1 <= v <= |s.versions|
  }

  ghost predicate HighestIsLatest(s: State) {
    |s.versions| > 0 ==> |s.versions| in s.versions && s.versions[|s.versions|].latest
  }

  /** Below a version whose demotion has run, nothing is flagged. */
  ghost predicate DemotionHolds(s: State) {
    forall d, v | d in s.demoted && v in s.versions && v < d :: !s.versions[v].latest
  }

  /** Deleting marks all there is, so a live version has only live versions after it. */
  ghost predicate LiveAreLast(s: State) {
    forall v, w | v in s.versions && w in s.versions && v < w && s.versions[v].live :: s.versions[w].live
  }

  ghost predicate UploadFits(s: State, u: Upload) {
    match u
    case Idle => true
    case HasRead(v) => v <= |s.versions|
    case Inserted(v) => v in s.versions
  }

  ghost predicate Inv(s: State) {
    && Contiguous(s) && HighestIsLatest(s) && DemotionHolds(s) && LiveAreLast(s)
    && s.demoted <= s.versions.Keys
    && forall u | 0 <= u < |s.uploads| :: UploadFits(s, s.uploads[u])
  }

  /** A version that is not taken is the next one. */
  lemma InsertIsNext(s: State, v: nat)
    requires Contiguous(s) && 1 <= v <= |s.versions| + 1 && v !in s.versions
    ensures v == |s.versions| + 1
    ensures |s.versions[v := Rec(true, true)]| == v
  {
    var after := s.versions[v := Rec(true, true)];
    assert after.Keys == s.versions.Keys + {v};
    assert |after| == |after.Keys| && |s.versions| == |s.versions.Keys|;
  }

  lemma InsertKeepsInv(s: State, u: nat)
    requires Inv(s) && Enabled(s, Insert(u))
    ensures Inv(DoInsert(s, u))
  {
    var v := s.uploads[u].newest + 1;
    assert UploadFits(s, s.uploads[u]);
    if v !in s.versions {
      InsertIsNext(s, v);
      var t := DoInsert(s, u);
      assert Contiguous(t);
      assert HighestIsLatest(t);
      assert LiveAreLast(t) && DemotionHolds(t) by {
        hide Contiguous;
      }
    }
  }

  lemma SameKeys(a: map<nat, Rec>, b: map<nat, Rec>)
    requires a.Keys == b.Keys
    ensures |a| == |b|
  {
    assert |a| == |a.Keys| && |b| == |b.Keys|;
  }

  lemma DemoteKeepsInv(s: State, u: nat)
    requires Inv(s) && Enabled(s, Demote(u))
    ensures Inv(State(DemoteBelow(s.versions, s.uploads[u].version), s.uploads[u := Idle],
                      s.demoted + {s.uploads[u].version}))
  {
    assert UploadFits(s, s.uploads[u]);
    SameKeys(s.versions, DemoteBelow(s.versions, s.uploads[u].version));
  }

  lemma DeleteKeepsInv(s: State)
    requires Inv(s)
    ensures Inv(s.(versions := DeleteAll(s.versions)))
  {
    SameKeys(s.versions, DeleteAll(s.versions));
  }

  lemma StepKeepsInv(s: State, e: Event, t: State)
    requires Inv(s) && Step(s, e, t)
    ensures Inv(t)
  {
    hide Contiguous, HighestIsLatest, DemotionHolds, LiveAreLast, DemoteBelow, DeleteAll, DoInsert;
    match e
    case Insert(u) => InsertKeepsInv(s, u);
    case Demote(u) => DemoteKeepsInv(s, u);
    case SoftDelete => DeleteKeepsInv(s);
    case ReadNewest(u) =>
      ReadFits(s);
      VersionsUnchanged(s, t);
    case _ => VersionsUnchanged(s, t);
  }

  lemma ReadFits(s: State)
    requires Contiguous(s)
    ensures forall v | v in s.versions :: v <= |s.versions|
  {
  }

  lemma VersionsUnchanged(s: State, t: State)
    requires Inv(s) && t.versions == s.versions && t.demoted == s.demoted
    ensures Contiguous(t) && DemotionHolds(t) && LiveAreLast(t) && HighestIsLatest(t)
  {
  }

  lemma {:induction false} RunKeepsInv(states: seq<State>, events: seq<Event>, i: nat)
    requires IsRun(states, events) && i < |states|
    ensures Inv(states[i])
  {
    if i > 0 {
      RunKeepsInv(states, events, i - 1);
      StepKeepsInv(states[i - 1], events[i - 1], states[i]);
    }
  }

  // ---- what a run guarantees ------------------------------------------------------------------------------------

  ghost predicate OnlyLatest(s: State, v: nat) {
    v in s.versions && forall w | w in s.versions :: s.versions[w].latest <==> w == v
  }

  /** In every state of every run, crashes and soft deletes included: versions are 1 to n, the highest is
      flagged latest, and it is the only one flagged as soon as its own demotion has run. */
  lemma VersionsAreSound(states: seq<State>, events: seq<Event>, i: nat)
    requires IsRun(states, events) && i < |states|
    ensures var s := states[i];
      && Contiguous(s) && HighestIsLatest(s)
      && (|s.versions| in s.demoted ==> OnlyLatest(s, |s.versions|))
  {
    RunKeepsInv(states, events, i);
  }

  predicate NonePending(s: State) {
    forall u | 0 <= u < |s.uploads| :: !s.uploads[u].Inserted?
  }

  /** Every version's demotion has run or is still to come. */
  ghost predicate Accounted(s: State) {
    forall v | v in s.versions :: v in s.demoted || Pending(s, v)
  }

  ghost predicate Pending(s: State, v: nat) {
    exists u | 0 <= u < |s.uploads| :: s.uploads[u] == Inserted(v)
  }

  lemma StepKeepsAccounts(s: State, e: Event, t: State)
    requires Accounted(s) && Step(s, e, t) && !e.Crash?
    ensures Accounted(t)
  {
    forall v | v in t.versions
      ensures v in t.demoted || Pending(t, v)
    {
      if v in s.versions && Pending(s, v) {
        var u :| 0 <= u < |s.uploads| && s.uploads[u] == Inserted(v);
        assert t.uploads[u] == Inserted(v) || v in t.demoted;
      } else if v !in s.versions {
        assert e.Insert? && t.uploads[e.u] == Inserted(v);
      }
    }
  }

  lemma {:induction false} RunKeepsAccounts(states: seq<State>, events: seq<Event>, i: nat)
    requires IsRun(states, events) && i < |states| && forall j | 0 <= j < i :: !events[j].Crash?
    ensures Accounted(states[i])
  {
    if i > 0 {
      RunKeepsAccounts(states, events, i - 1);
      StepKeepsAccounts(states[i - 1], events[i - 1], states[i]);
    }
  }

  /** Without crashes, once no demotion is pending the highest version is the only one flagged. */
  lemma SoleLatestWhenQuiet(states: seq<State>, events: seq<Event>, i: nat)
    requires IsRun(states, events) && i < |states| && NonePending(states[i])
    requires forall j | 0 <= j < i :: !events[j].Crash?
    ensures |states[i].versions| > 0 ==> OnlyLatest(states[i], |states[i].versions|)
  {
    RunKeepsInv(states, events, i);
    RunKeepsAccounts(states, events, i);
  }

  /** A reader of a file that has versions never finds it without a current one. */
  lemma AlwaysACurrentVersion(states: seq<State>, events: seq<Event>, i: nat)
    requires IsRun(states, events) && i < |states| && AnyLive(states[i].versions)
    ensures exists v :: v in states[i].versions && states[i].versions[v].latest && states[i].versions[v].live
  {
    RunKeepsInv(states, events, i);
    var s := states[i];
    var v :| v in s.versions && s.versions[v].live;
    assert |s.versions| in s.versions && s.versions[|s.versions|].live;
  }

  // ---- the code of one upload -------------------------------------------------------------------------------------

  /** Events one after the other from `s`, through the states listed. */
  ghost predicate Passes(s: State, events: seq<Event>, states: seq<State>) {
    && |states| == |events| + 1 && states[0] == s
    && forall i | 0 <= i < |events| :: Step(states[i], events[i], states[i + 1])
  }

  /** The records of one file. */
  class FileRecords {
    var versions: map<nat, Rec>

    /** `get_file_by_id`: the newest version that is not deleted. */
    method Newest() returns (newest: Option<nat>)
      ensures newest.Some? ==> IsNewestLive(versions, newest.value)
      ensures newest.None? ==> !AnyLive(versions)
      ensures newest.Some? ==> newest.value in versions && versions[newest.value].live
      ensures forall w | w in versions && versions[w].live :: newest.Some? && w <= newest.value
    {
      newest := None;
      var rest := versions.Keys;
      while rest != {}
        invariant rest <= versions.Keys
        invariant newest.Some? ==> newest.value in versions && versions[newest.value].live
        invariant forall w | w in versions && versions[w].live && w !in rest :: newest.Some? && w <= newest.value
        decreases |rest|
      {
        var v :| v in rest;
        if versions[v].live && (newest.None? || v > newest.value) {
          newest := Some(v);
        }
        rest := rest - {v};
      }
    }

    /** The insert; the unique index refuses a version that is taken. */
    method InsertVersion(version: nat) returns (inserted: bool)
      modifies this
      ensures inserted == (version !in old(versions))
      ensures versions == if inserted then old(versions)[version := Rec(true, true)] else old(versions)
    {
      inserted := version !in versions;
      if inserted {
        versions := versions[version := Rec(true, true)];
      }
    }

    /** `update_many({"is_latest": True, "version": {"$lt": version}}, {"is_latest": False})` */
    method DemoteOlder(version: nat)
      modifies this
      ensures versions == DemoteBelow(old(versions), version)
    {
      versions := map w | w in versions ::
        if versions[w].latest && w < version then versions[w].(latest := false) else versions[w];
    }

    /** `delete_file_metadata`, softly: marks every version, unless none is left to delete; nothing else changes. */
    method Delete(ghost s: State) returns (deleted: bool, ghost t: State)
      requires s.versions == versions
      modifies this
      ensures deleted <==> exists v | v in old(versions) :: old(versions)[v].live
      ensures versions.Keys == old(versions).Keys
      ensures forall v | v in versions :: versions[v] == old(versions)[v].(live := false)
      ensures t.versions == versions && (if deleted then Step(s, SoftDelete, t) else t == s)
    {
      var newest := Newest();
      deleted, t := newest.Some?, s;
      if deleted {
        versions := map v | v in versions :: Rec(versions[v].latest, false);
        t := s.(versions := versions);
      }
    }

    /** An upload with nothing in between: read, insert, demote are steps of the machine. `Err` when the file
        is gone or the version is taken; otherwise the new version is the only one flagged. */
    method Upload(isNew: bool, ghost s: State, ghost u: nat)
      returns (r: Result<nat>, ghost events: seq<Event>, ghost end: State)
      requires u < |s.uploads| && s.uploads[u].Idle? && s.versions == versions && Inv(s)
      modifies this
      ensures Leads(s, events, end) && end.versions == versions && end.uploads == s.uploads
      ensures r.Err? <==> if isNew then 1 in old(versions) else !AnyLive(old(versions))
      ensures r.Err? ==> versions == old(versions)
      ensures r.Ok? ==> r.value == |old(versions)| + 1 == |versions| && OnlyLatest(end, r.value)
      ensures r.Ok? ==> versions.Keys == old(versions).Keys + {r.value} && versions[r.value] == Rec(true, true)
      ensures r.Ok? ==> forall w | w in old(versions) ::
        w in versions && versions[w] == old(versions)[w].(latest := false)
    {
      hide Inv, Leads, OnlyLatest;
      events, end := [], s;
      LeadsNowhere(s);
      var newest: nat := 0;
      if !isNew {
        var found := Newest();
        if found.None? {
          return Err, events, end;
        }
        newest := found.value;
        NewestIsLast(s, newest);
      }
      events, end := ReadStep(s, u, newest, isNew);
      r, events, end := Place(newest, s, u, end, events);
    }

    /** The rest of an upload that has read the newest version: insert, then demote the older ones. */
    method Place(newest: nat, ghost s: State, ghost u: nat, ghost read: State, ghost before: seq<Event>)
      returns (r: Result<nat>, ghost events: seq<Event>, ghost end: State)
      requires u < |s.uploads| && s.uploads[u].Idle? && s.versions == versions && Inv(read)
      requires read == s.(uploads := s.uploads[u := HasRead(newest)]) && Leads(s, before, read)
      modifies this
      ensures Leads(s, events, end) && end.versions == versions && end.uploads == s.uploads
      ensures r.Err? <==> newest + 1 in old(versions)
      ensures r.Err? ==> versions == old(versions)
      ensures r.Ok? ==> r.value == |old(versions)| + 1 == |versions| && OnlyLatest(end, r.value)
      ensures r.Ok? ==> versions.Keys == old(versions).Keys + {r.value} && versions[r.value] == Rec(true, true)
      ensures r.Ok? ==> forall w | w in old(versions) ::
        w in versions && versions[w] == old(versions)[w].(latest := false)
    {
      hide Inv, Leads, OnlyLatest, DemoteBelow, Step, DoInsert;
      events, end := PlaceSteps(s, u, newest, read, before);
      AloneFlagged(s.versions, newest + 1);
      var inserted := InsertVersion(newest + 1);
      if !inserted {
        return Err, events, end;
      }
      DemoteOlder(newest + 1);
      r := Ok(newest + 1);
    }
  }

  /** The events lead from one state to the other. */
  ghost predicate Leads(s: State, events: seq<Event>, t: State) {
    exists states :: Passes(s, events, states) && states[|events|] == t
  }

  lemma LeadsNowhere(s: State)
    ensures Leads(s, [], s)
  {
    assert Passes(s, [], [s]) && [s][0] == s;
  }

  lemma OneMoreStep(s: State, events: seq<Event>, t: State, e: Event, next: State) returns (all: seq<Event>)
    requires Leads(s, events, t) && Step(t, e, next)
    ensures Leads(s, all, next) && all == events + [e]
  {
    all := events + [e];
    var states :| Passes(s, events, states) && states[|events|] == t;
    var longer := states + [next];
    forall i | 0 <= i < |all|
      ensures Step(longer[i], all[i], longer[i + 1])
    {
      if i < |events| {
        assert Step(states[i], events[i], states[i + 1]);
      }
    }
    assert Passes(s, all, longer) && longer[|all|] == next;
  }

  /** The first step of an upload. */
  lemma ReadStep(s: State, u: nat, newest: nat, isNew: bool) returns (events: seq<Event>, t: State)
    requires Inv(s) && u < |s.uploads| && s.uploads[u].Idle?
    requires if isNew then newest == 0 else IsNewestLive(s.versions, newest)
    ensures t == s.(uploads := s.uploads[u := HasRead(newest)]) && Leads(s, events, t) && Inv(t)
  {
    hide Inv, Leads;
    t := s.(uploads := s.uploads[u := HasRead(newest)]);
    var e := if isNew then Begin(u) else ReadNewest(u);
    StepKeepsInv(s, e, t);
    LeadsNowhere(s);
    events := OneMoreStep(s, [], s, e, t);
  }

  lemma NewestIsLast(s: State, v: nat)
    requires Inv(s) && IsNewestLive(s.versions, v)
    ensures v == |s.versions| && v + 1 !in s.versions
  {
    assert |s.versions| in s.versions;
  }

  lemma InsertStep(s: State, u: nat) returns (t: State)
    requires Enabled(s, Insert(u)) && Inv(s)
    ensures t == DoInsert(s, u) && Step(s, Insert(u), t) && Inv(t)
    ensures s.uploads[u].newest + 1 in s.versions ==> t == s.(uploads := s.uploads[u := Idle])
    ensures s.uploads[u].newest + 1 !in s.versions ==>
      t == s.(versions := s.versions[s.uploads[u].newest + 1 := Rec(true, true)],
              uploads := s.uploads[u := Inserted(s.uploads[u].newest + 1)])
  {
    t := DoInsert(s, u);
    InsertKeepsInv(s, u);
  }

  /** The last two steps of an upload, or the one that is refused. */
  lemma PlaceSteps(s: State, u: nat, newest: nat, read: State, before: seq<Event>)
    returns (events: seq<Event>, end: State)
    requires u < |s.uploads| && s.uploads[u].Idle? && Inv(read)
    requires read == s.(uploads := s.uploads[u := HasRead(newest)]) && Leads(s, before, read)
    ensures Leads(s, events, end) && end.uploads == s.uploads
    ensures newest + 1 in s.versions ==> end.versions == s.versions
    ensures newest + 1 !in s.versions ==>
      && newest == |s.versions| && (forall w | w in s.versions :: w < newest + 1)
      && end.versions == DemoteBelow(s.versions[newest + 1 := Rec(true, true)], newest + 1)
      && |end.versions| == newest + 1 && OnlyLatest(end, newest + 1)
  {
    hide Inv, Leads, OnlyLatest, DemoteBelow, Step, DoInsert;
    end := InsertStep(read, u);
    events := OneMoreStep(s, before, read, Insert(u), end);
    if newest + 1 !in s.versions {
      FreshVersion(read, u);
      var demoting := end;
      end := DemoteStep(end, u);
      events := OneMoreStep(s, events, demoting, Demote(u), end);
    }
    assert end.uploads == s.uploads;
  }

  /** Exactly the flags below the version go. */
  lemma DemotedMeans(versions: map<nat, Rec>, v: nat)
    ensures DemoteBelow(versions, v).Keys == versions.Keys
    ensures forall w | w in versions ::
      DemoteBelow(versions, v)[w] == Rec(versions[w].latest && w >= v, versions[w].live)
  {
  }

  /** A new version above all others, which lose their flags. */
  lemma AloneFlagged(versions: map<nat, Rec>, v: nat)
    ensures (forall w | w in versions :: w < v) ==> var after := DemoteBelow(versions[v := Rec(true, true)], v);
      && after.Keys == versions.Keys + {v} && after[v] == Rec(true, true)
      && forall w | w in versions :: after[w] == versions[w].(latest := false)
  {
  }

  lemma FreshVersion(s: State, u: nat)
    requires Inv(s) && Enabled(s, Insert(u)) && s.uploads[u].newest + 1 !in s.versions
    ensures s.uploads[u].newest == |s.versions| && forall w | w in s.versions :: w <= |s.versions|
    ensures |s.versions[s.uploads[u].newest + 1 := Rec(true, true)]| == |s.versions| + 1
  {
    assert UploadFits(s, s.uploads[u]);
    InsertIsNext(s, s.uploads[u].newest + 1);
  }

  lemma DemoteStep(s: State, u: nat) returns (t: State)
    requires Enabled(s, Demote(u)) && Inv(s) && s.uploads[u].version == |s.versions|
    ensures Step(s, Demote(u), t) && t.versions == DemoteBelow(s.versions, |s.versions|)
    ensures t.uploads == s.uploads[u := Idle] && |t.versions| == |s.versions| && OnlyLatest(t, |s.versions|)
  {
    var v := s.uploads[u].version;
    t := State(DemoteBelow(s.versions, v), s.uploads[u := Idle], s.demoted + {v});
    SameKeys(s.versions, t.versions);
    assert UploadFits(s, s.uploads[u]);
  }
}

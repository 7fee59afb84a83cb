/** Requests that share one idempotency key: claim, run, store or release, replay. */
module Idempotency {
  import opened Lib

  type Bytes = seq<bv8>

  type Headers = seq<(string, string)>

  const NOT_STORED: set<int> := {401, 403, 408, 425, 429}
  const MAX_STORED_BODY := 1_048_576
  const REPLAYED_HEADERS: set<string> := {"content-type", "location", "content-disposition"}

  /** What the application has sent so far. */
  datatype Sent = Sent(status: int, headers: Headers, content: Bytes, tooBig: bool)

  const NOTHING_SENT := Sent(500, [], [], false)

  datatype Message = ResponseStart(status: int, headers: Headers) | ResponseBody(chunk: Bytes) | Other

  function AddMessage(out: Sent, m: Message): Sent {
    match m
    case ResponseStart(status, headers) => out.(status := status, headers := headers)
    case ResponseBody(chunk) =>
      var content := out.content + chunk;
      out.(content := content, tooBig := out.tooBig || |content| > MAX_STORED_BODY)
    case Other => out
  }

  predicate Storable(out: Sent) {
    !(out.status >= 500 || out.status in NOT_STORED || out.tooBig)
  }

  predicate IsReplayed(header: (string, string)) {
    Lower(header.0) in REPLAYED_HEADERS
  }

  function KeptHeaders(headers: Headers): Headers {
    if headers == [] then []
    else (if IsReplayed(headers[0]) then [headers[0]] else []) + KeptHeaders(headers[1..])
  }

  /** The positions that are kept, in order. */
  function KeptAt(headers: Headers): (at: seq<nat>)
    ensures forall i | 0 <= i < |at| :: at[i] < |headers|
  {
    if headers == [] then []
    else if IsReplayed(headers[|headers| - 1]) then KeptAt(headers[..|headers| - 1]) + [|headers| - 1]
    else KeptAt(headers[..|headers| - 1])
  }

  lemma ReplayedNames(header: (string, string))
    ensures IsReplayed(header) <==>
      SameLetters(header.0, "content-type") || SameLetters(header.0, "location")
      || SameLetters(header.0, "content-disposition")
  {
    hide Lower, SameLetters;
    LowerKeeps("content-type");
    LowerKeeps("location");
    LowerKeeps("content-disposition");
    LowerEqual(header.0, "content-type");
    LowerEqual(header.0, "location");
    LowerEqual(header.0, "content-disposition");
  }

  lemma {:induction false} KeptOfMore(headers: Headers, more: Headers)
    ensures KeptHeaders(headers + more) == KeptHeaders(headers) + KeptHeaders(more)
  {
    if headers == [] {
      assert headers + more == more;
    } else {
      assert (headers + more)[1..] == headers[1..] + more;
      KeptOfMore(headers[1..], more);
    }
  }

  /** Exactly the replayable headers are kept, each as often as it was sent and in the order it was sent. */
  lemma {:induction false} KeptInOrder(headers: Headers)
    ensures |KeptAt(headers)| == |KeptHeaders(headers)| && Ascending(KeptAt(headers))
    ensures forall i | 0 <= i < |KeptAt(headers)| :: KeptHeaders(headers)[i] == headers[KeptAt(headers)[i]]
    ensures forall j: nat | j < |headers| :: j in KeptAt(headers) <==>
      SameLetters(headers[j].0, "content-type") || SameLetters(headers[j].0, "location")
      || SameLetters(headers[j].0, "content-disposition")
  {
    hide IsReplayed, SameLetters;
    if headers != [] {
      ReplayedNames(headers[|headers| - 1]);
      var front, last := headers[..|headers| - 1], headers[|headers| - 1];
      KeptInOrder(front);
      KeptOfMore(front, [last]);
      assert headers == front + [last] && [last][1..] == [];
    }
  }

  /** The cache entry under the key. */
  datatype Entry =
    | Absent
    | Running(body: string)
    | Done(body: string, status: int, headers: Headers, content: Bytes)

  /** After the application returned: store the response, or release the claim. */
  function Settled(body: string, out: Sent): Entry {
    if Storable(out) then Done(body, out.status, KeptHeaders(out.headers), out.content) else Absent
  }

  /** How a request ended: its own response, an exception, or an answer from the stored entry. */
  datatype Answer =
    | Own(out: Sent)
    | Failed
    | Conflict
    | Mismatch
    | Replay(status: int, headers: Headers, content: Bytes)

  /** `_answer_retry` */
  function AnswerRetry(entry: Entry, body: string): Answer {
    match entry
    case Absent => Conflict
    case Running(_) => Conflict
    case Done(stored, status, headers, content) =>
      if stored != body then Mismatch else Replay(status, headers, content)
  }

  /** The variables that one call of `handle` captures while the application runs. */
  class Capture {
    var out: Sent

    constructor ()
      ensures out == NOTHING_SENT
    {
      out := NOTHING_SENT;
    }

    /** `capture_send`: everything sent is passed on, and remembered. */
    method Send(m: Message)
      modifies this
      ensures out == AddMessage(old(out), m)
      ensures m.ResponseStart? ==> out == old(out).(status := m.status, headers := m.headers)
      ensures m.ResponseBody? ==>
        && out.status == old(out.status) && out.headers == old(out.headers) && out.content == old(out.content) + m.chunk
        && (out.tooBig <==> old(out.tooBig) || |out.content| > 1_048_576)
      ensures m.Other? ==> out == old(out)
    {
      if m.ResponseStart? {
        out := out.(status := m.status, headers := m.headers);
      } else if m.ResponseBody? {
        out := out.(content := out.content + m.chunk);
        out := out.(tooBig := out.tooBig || |out.content| > MAX_STORED_BODY);
      }
    }

    /** A whole response: the stored content is exactly the body the client got, and status and headers are those of
        the last message that set them. */
    method SendAll(messages: seq<Message>)
      modifies this
      ensures out.content == old(out.content) + BodyOf(messages)
      ensures (out.status, out.headers) == StartOf(messages, (old(out.status), old(out.headers)))
    {
      for i := 0 to |messages|
        invariant out.content == old(out.content) + BodyOf(messages[..i])
        invariant (out.status, out.headers) == StartOf(messages[..i], (old(out.status), old(out.headers)))
      {
        assert messages[..i + 1][..i] == messages[..i];
        Send(messages[i]);
      }
      assert messages[..|messages|] == messages;
    }
  }

  function BodyOf(messages: seq<Message>): Bytes {
    if messages == [] then []
    else
      var last := messages[|messages| - 1];
      BodyOf(messages[..|messages| - 1]) + if last.ResponseBody? then last.chunk else []
  }

  /** Status and headers of the last message that sets them. */
  function StartOf(messages: seq<Message>, before: (int, Headers)): (r: (int, Headers))
    ensures (forall m | m in messages :: !m.ResponseStart?) ==> r == before
    ensures r == before || exists m | m in messages :: m.ResponseStart? && r == (m.status, m.headers)
  {
    if messages == [] then before
    else
      var last := messages[|messages| - 1];
      if last.ResponseStart? then (last.status, last.headers) else StartOf(messages[..|messages| - 1], before)
  }

  // ---- the machine -------------------------------------------------------------------------------------------------

  datatype Phase =
    | Arrived
    | Executing(out: Sent)
    | Returned(out: Sent)
    | Raised
    | Retrying
    | Ended(answer: Answer)
    | Dead

  datatype Request = Request(body: string, phase: Phase)

  datatype State = State(entry: Entry, requests: seq<Request>)

  /** Atomic steps; `Crash` is a process that dies with its request. */
  datatype Event =
    | Arrive(body: string)
    | Claim(i: nat)
    | Emit(i: nat, m: Message)
    | Return(i: nat)
    | Raise(i: nat)
    | Settle(i: nat)
    | Release(i: nat)
    | Respond(i: nat)
    | Crash(i: nat)

  predicate Enabled(s: State, e: Event) {
    if e.Arrive? then true
    else
      e.i < |s.requests| &&
      var p := s.requests[e.i].phase;
      match e
      case Claim(_) => p.Arrived?
      case Emit(_, _) => p.Executing?
      case Return(_) => p.Executing?
      case Raise(_) => p.Executing?
      case Settle(_) => p.Returned?
      case Release(_) => p.Raised?
      case Respond(_) => p.Retrying?
      case Crash(_) => !p.Ended?
      case Arrive(_) => true
  }

  function SetPhase(s: State, i: nat, p: Phase): (t: State)
    requires i < |s.requests|
    ensures |t.requests| == |s.requests| && t.entry == s.entry
  {
    s.(requests := s.requests[i := s.requests[i].(phase := p)])
  }

  function Next(s: State, e: Event): State
    requires Enabled(s, e)
  {
    match e
    case Arrive(body) => s.(requests := s.requests + [Request(body, Arrived)])
    case Claim(i) =>
      if s.entry.Absent? then SetPhase(s.(entry := Running(s.requests[i].body)), i, Executing(NOTHING_SENT))
      else SetPhase(s, i, Retrying)
    case Emit(i, m) => SetPhase(s, i, Executing(AddMessage(s.requests[i].phase.out, m)))
    case Return(i) => SetPhase(s, i, Returned(s.requests[i].phase.out))
    case Raise(i) => SetPhase(s, i, Raised)
    case Settle(i) =>
      var out := s.requests[i].phase.out;
      SetPhase(s.(entry := Settled(s.requests[i].body, out)), i, Ended(Own(out)))
    case Release(i) => SetPhase(s.(entry := Absent), i, Ended(Failed))
    case Respond(i) => SetPhase(s, i, Ended(AnswerRetry(s.entry, s.requests[i].body)))
    case Crash(i) => SetPhase(s, i, Dead)
  }

  ghost predicate IsRun(states: seq<State>, events: seq<Event>) {
    && |states| == |events| + 1 && states[0] == State(Absent, [])
    && forall i | 0 <= i < |events| :: Enabled(states[i], events[i]) && states[i + 1] == Next(states[i], events[i])
  }

  // ---- the invariant --------------------------------------------------------------------------------------------

  /** The request's handler runs, or has run and its outcome is not settled yet. */
  predicate Active(r: Request) {
    r.phase.Executing? || r.phase.Returned? || r.phase.Raised?
  }

  predicate OneAtATime(s: State) {
    && (forall i | 0 <= i < |s.requests| && Active(s.requests[i]) :: s.entry == Running(s.requests[i].body))
    && (forall i, j | 0 <= i < j < |s.requests| :: !(Active(s.requests[i]) && Active(s.requests[j])))
  }

  /** The request ran to the end and this is what its own client was sent. */
  predicate Served(r: Request, body: string, status: int, headers: Headers, content: Bytes) {
    && r.body == body && r.phase.Ended? && r.phase.answer.Own?
    && var out := r.phase.answer.out;
    && Storable(out) && out.status == status && KeptHeaders(out.headers) == headers && out.content == content
  }

  ghost predicate WasServed(s: State, body: string, status: int, headers: Headers, content: Bytes) {
    exists j | 0 <= j < |s.requests| :: Served(s.requests[j], body, status, headers, content)
  }

  ghost predicate ReplaysAreServed(s: State) {
    && (s.entry.Done? ==> WasServed(s, s.entry.body, s.entry.status, s.entry.headers, s.entry.content))
    && (forall i | 0 <= i < |s.requests| :: ReplayIsServed(s, s.requests[i]))
  }

  ghost predicate ReplayIsServed(s: State, r: Request) {
    r.phase.Ended? && r.phase.answer.Replay? ==>
      WasServed(s, r.body, r.phase.answer.status, r.phase.answer.headers, r.phase.answer.content)
  }

  lemma StepKeepsOneAtATime(s: State, e: Event)
    requires OneAtATime(s) && Enabled(s, e)
    ensures OneAtATime(Next(s, e))
  {
  }

  /** Served requests stay served. */
  lemma ServedStays(s: State, e: Event, body: string, status: int, headers: Headers, content: Bytes)
    requires Enabled(s, e) && WasServed(s, body, status, headers, content)
    ensures WasServed(Next(s, e), body, status, headers, content)
  {
    var j :| 0 <= j < |s.requests| && Served(s.requests[j], body, status, headers, content);
    assert Next(s, e).requests[j] == s.requests[j];
  }

  lemma StepKeepsReplays(s: State, e: Event)
    requires OneAtATime(s) && ReplaysAreServed(s) && Enabled(s, e)
    ensures ReplaysAreServed(Next(s, e))
  {
    hide WasServed, Settled;
    var t := Next(s, e);
    if s.entry.Done? {
      ServedStays(s, e, s.entry.body, s.entry.status, s.entry.headers, s.entry.content);
    }
    if e.Settle? {
      SettledIsServed(s, e.i);
    }
    forall i | 0 <= i < |t.requests|
      ensures ReplayIsServed(t, t.requests[i])
    {
      if i < |s.requests| && t.requests[i] == s.requests[i] {
        assert ReplayIsServed(s, s.requests[i]);
        var p := s.requests[i].phase;
        if p.Ended? && p.answer.Replay? {
          ServedStays(s, e, s.requests[i].body, p.answer.status, p.answer.headers, p.answer.content);
        }
      }
    }
  }

  lemma SettledIsServed(s: State, i: nat)
    requires Enabled(s, Settle(i))
    ensures var t := Next(s, Settle(i));
      t.entry.Done? ==> WasServed(t, t.entry.body, t.entry.status, t.entry.headers, t.entry.content)
  {
    var t := Next(s, Settle(i));
    if t.entry.Done? {
      assert Served(t.requests[i], t.entry.body, t.entry.status, t.entry.headers, t.entry.content);
    }
  }

  lemma {:induction false} RunKeepsInv(states: seq<State>, events: seq<Event>, i: nat)
    requires IsRun(states, events) && i < |states|
    ensures OneAtATime(states[i]) && ReplaysAreServed(states[i])
  {
    hide OneAtATime, ReplaysAreServed, Next;
    if i == 0 {
      EmptyInv();
    } else {
      RunKeepsInv(states, events, i - 1);
      StepKeepsOneAtATime(states[i - 1], events[i - 1]);
      StepKeepsReplays(states[i - 1], events[i - 1]);
    }
  }

  lemma EmptyInv()
    ensures OneAtATime(State(Absent, [])) && ReplaysAreServed(State(Absent, []))
  {
  }

  // ---- what a run guarantees ------------------------------------------------------------------------------------

  /** In no state of any run do two requests with the key run at once. */
  lemma ExecutionsNeverOverlap(states: seq<State>, events: seq<Event>, k: nat, i: nat, j: nat)
    requires IsRun(states, events) && k < |states| && i < |states[k].requests| && j < |states[k].requests|
    requires states[k].requests[i].phase.Executing? && states[k].requests[j].phase.Executing?
    ensures i == j
  {
    RunKeepsInv(states, events, k);
  }

  /** Once a response is stored it stays as it is, and nothing runs any more. */
  lemma {:induction false} StoredIsFinal(states: seq<State>, events: seq<Event>, k: nat, l: nat, i: nat)
    requires IsRun(states, events) && k <= l < |states| && states[k].entry.Done?
    ensures states[l].entry == states[k].entry
    ensures i < |states[l].requests| ==> !Active(states[l].requests[i])
  {
    RunKeepsInv(states, events, l);
    if k < l {
      StoredIsFinal(states, events, k, l - 1, i);
      RunKeepsInv(states, events, l - 1);
    }
  }

  /** A replay carries the status, the replayable headers and the content that an earlier request with the
      same body got as its own response, byte for byte; a request with another body is never replayed. */
  lemma ReplayIsExact(states: seq<State>, events: seq<Event>, k: nat, i: nat)
    requires IsRun(states, events) && k < |states| && i < |states[k].requests|
    requires states[k].requests[i].phase.Ended? && states[k].requests[i].phase.answer.Replay?
    ensures var r := states[k].requests[i];
      exists j | 0 <= j < |states[k].requests| && j != i ::
        Served(states[k].requests[j], r.body, r.phase.answer.status, r.phase.answer.headers, r.phase.answer.content)
  {
    RunKeepsInv(states, events, k);
    var r := states[k].requests[i];
    assert ReplayIsServed(states[k], r);
    var j :| 0 <= j < |states[k].requests|
      && Served(states[k].requests[j], r.body, r.phase.answer.status, r.phase.answer.headers, r.phase.answer.content);
    assert j != i;
  }

  /** In every run, a request that found the key taken is answered by what the key holds at that moment: the stored
      response if its body is the stored one, a mismatch if it is another, and a conflict while the first request
      runs or after it freed the key. The key stays as it is. */
  lemma RetryIsAnswered(states: seq<State>, events: seq<Event>, k: nat, i: nat)
    requires IsRun(states, events) && k < |events| && events[k] == Respond(i)
    ensures Enabled(states[k], Respond(i)) && states[k + 1].entry == states[k].entry
    ensures var entry, r, after := states[k].entry, states[k].requests[i], states[k + 1].requests[i];
      && after.body == r.body
      && (entry.Done? && entry.body == r.body ==>
            after.phase == Ended(Replay(entry.status, entry.headers, entry.content)))
      && (entry.Done? && entry.body != r.body ==> after.phase == Ended(Mismatch))
      && (entry.Running? || entry.Absent? ==> after.phase == Ended(Conflict))
  {
    assert Enabled(states[k], events[k]) && states[k + 1] == Next(states[k], events[k]);
  }

  /** Once a response is stored, every later answer to a request with the same body is that response, and every
      other request with the key is refused as a mismatch. */
  lemma StoredIsReplayed(states: seq<State>, events: seq<Event>, k: nat, l: nat, i: nat)
    requires IsRun(states, events) && k <= l < |events| && states[k].entry.Done? && events[l] == Respond(i)
    ensures i < |states[l].requests| && i < |states[l + 1].requests|
    ensures var stored := states[k].entry;
      states[l + 1].requests[i].phase
        == Ended(if states[l].requests[i].body == stored.body
                 then Replay(stored.status, stored.headers, stored.content) else Mismatch)
  {
    StoredIsFinal(states, events, k, l, 0);
    RetryIsAnswered(states, events, l, i);
  }

  /** The size flag says whether the captured body has outgrown the limit. */
  predicate FlagsSize(r: Request) {
    r.phase.Executing? || r.phase.Returned? ==> (r.phase.out.tooBig <==> |r.phase.out.content| > MAX_STORED_BODY)
  }

  predicate FlagsSizes(s: State) {
    forall i | 0 <= i < |s.requests| :: FlagsSize(s.requests[i])
  }

  lemma {:induction false} RunFlagsSizes(states: seq<State>, events: seq<Event>, k: nat)
    requires IsRun(states, events) && k < |states|
    ensures FlagsSizes(states[k])
  {
    if k > 0 {
      RunFlagsSizes(states, events, k - 1);
      var s, t := states[k - 1], states[k];
      forall i | 0 <= i < |t.requests|
        ensures FlagsSize(t.requests[i])
      {
        assert i < |s.requests| ==> FlagsSize(s.requests[i]);
      }
    }
  }

  /** In every run, a response is stored exactly when its status is below 500 and none of the retryable
      rejections, and its body fits; otherwise the key is free again and a retry runs for real. */
  lemma SettleStoresOrFrees(states: seq<State>, events: seq<Event>, k: nat, i: nat)
    requires IsRun(states, events) && k < |events| && events[k] == Settle(i)
    ensures Enabled(states[k], Settle(i))
    ensures var out := states[k].requests[i].phase.out;
      if out.status < 500 && out.status !in {401, 403, 408, 425, 429} && |out.content| <= 1_048_576
      then states[k + 1].entry == Done(states[k].requests[i].body, out.status, KeptHeaders(out.headers), out.content)
      else states[k + 1].entry == Absent
  {
    RunFlagsSizes(states, events, k);
    assert FlagsSize(states[k].requests[i]);
  }

  // ---- the code of one request ------------------------------------------------------------------------------------

  predicate CanRun(s: State, events: seq<Event>)
    decreases |events|, 0
  {
    events == [] ||
    (CanRun(s, events[..|events| - 1]) && Enabled(After(s, events[..|events| - 1]), events[|events| - 1]))
  }

  function After(s: State, events: seq<Event>): State
    requires CanRun(s, events)
    decreases |events|, 1
  {
    if events == [] then s else Next(After(s, events[..|events| - 1]), events[|events| - 1])
  }

  lemma OneMoreStep(s: State, events: seq<Event>, e: Event)
    requires CanRun(s, events) && Enabled(After(s, events), e)
    ensures CanRun(s, events + [e]) && After(s, events + [e]) == Next(After(s, events), e)
  {
    assert (events + [e])[..|events|] == events;
  }

  /** The key's place in the cache. */
  class Slot {
    var entry: Entry

    /** `cache.add`: stores only if nothing is there. */
    method Add(body: string) returns (claimed: bool)
      modifies this
      ensures claimed == old(entry).Absent? && entry == if claimed then Running(body) else old(entry)
    {
      claimed := entry.Absent?;
      if claimed {
        entry := Running(body);
      }
    }

    /** `handle`, for an application that sends these messages and then returns or raises. With nobody else in
        between it is a run of the machine, from the request's arrival to the answer it ends with. */
    method Handle(body: string, messages: seq<Message>, raises: bool, ghost s: State)
      returns (answer: Answer, ghost events: seq<Event>)
      requires s.entry == entry
      modifies this
      ensures CanRun(s, events)
      ensures After(s, events) == WithLast(s, entry, body, Ended(answer))
      ensures old(entry).Done? && old(entry).body == body ==>
        answer == Replay(old(entry).status, old(entry).headers, old(entry).content)
      ensures old(entry).Done? && old(entry).body != body ==> answer == Mismatch
      ensures old(entry).Running? ==> answer == Conflict
      ensures !old(entry).Absent? ==> entry == old(entry)
      ensures old(entry).Absent? && raises ==> answer == Failed && entry == Absent
      ensures old(entry).Absent? && !raises ==>
        && answer.Own? && answer.out.content == BodyOf(messages)
        && (answer.out.status, answer.out.headers) == StartOf(messages, (500, []))
        && entry == if answer.out.status < 500 && answer.out.status !in {401, 403, 408, 425, 429}
                       && |BodyOf(messages)| <= 1_048_576
                    then Done(body, answer.out.status, KeptHeaders(answer.out.headers), BodyOf(messages)) else Absent
    {
      hide CanRun, After, Next, AddMessage, Storable, Settled, Gathers, StartOf;
      GathersNothing(messages);
      ghost var i := |s.requests|;
      events := FirstStep(s, body);
      var claimed := Add(body);
      events := ClaimStep(s, events, body);
      if !claimed {
        answer := AnswerRetry(entry, body);
        events := LastStep(s, events, s.entry, body, Retrying, Respond(i));
        return;
      }
      var capture := new Capture();
      for k := 0 to |messages|
        invariant entry == Running(body)
        invariant CanRun(s, events) && After(s, events) == WithLast(s, Running(body), body, Executing(capture.out))
        invariant Gathers(capture.out, messages[..k])
      {
        ghost var before := capture.out;
        capture.Send(messages[k]);
        GathersMore(messages, k, before);
        events := LastStep(s, events, Running(body), body, Executing(before), Emit(i, messages[k]));
      }
      if raises {
        entry := Absent;
        answer := Failed;
        events := LastStep(s, events, Running(body), body, Executing(capture.out), Raise(i));
        events := LastStep(s, events, Running(body), body, Raised, Release(i));
        return;
      }
      GatheredIsStored(body, messages, capture.out);
      events := LastStep(s, events, Running(body), body, Executing(capture.out), Return(i));
      Store(body, capture.out);
      answer := Own(capture.out);
      events := LastStep(s, events, Running(body), body, Returned(capture.out), Settle(i));
    }

    /** What the key holds once the application has returned. */
    method Store(body: string, out: Sent)
      modifies this
      ensures entry == Settled(body, out)
      ensures entry == if out.status < 500 && out.status !in {401, 403, 408, 425, 429} && !out.tooBig
                       then Done(body, out.status, KeptHeaders(out.headers), out.content) else Absent
    {
      if out.status >= 500 || out.status in NOT_STORED || out.tooBig {
        entry := Absent;
        return;
      }
      entry := Done(body, out.status, KeptHeaders(out.headers), out.content);
    }
  }

  /** The state with one more request. */
  function WithLast(s: State, entry: Entry, body: string, p: Phase): State {
    State(entry, s.requests + [Request(body, p)])
  }

  /** What these messages leave behind. */
  predicate Gathers(out: Sent, messages: seq<Message>) {
    && out.content == BodyOf(messages) && (out.status, out.headers) == StartOf(messages, (500, []))
    && (out.tooBig <==> |out.content| > MAX_STORED_BODY)
  }

  lemma GathersNothing(messages: seq<Message>)
    ensures messages[..0] == [] && Gathers(NOTHING_SENT, messages[..0])
  {
  }

  lemma GathersMore(messages: seq<Message>, k: nat, out: Sent)
    requires k < |messages| && Gathers(out, messages[..k])
    ensures Gathers(AddMessage(out, messages[k]), messages[..k + 1])
  {
    assert messages[..k + 1][..k] == messages[..k];
  }

  lemma GatheredIsStored(body: string, messages: seq<Message>, out: Sent)
    requires Gathers(out, messages[..|messages|])
    ensures out.content == BodyOf(messages) && (out.status, out.headers) == StartOf(messages, (500, []))
    ensures Settled(body, out)
         == if out.status < 500 && out.status !in {401, 403, 408, 425, 429} && |BodyOf(messages)| <= 1_048_576
            then Done(body, out.status, KeptHeaders(out.headers), BodyOf(messages)) else Absent
  {
    assert messages[..|messages|] == messages;
  }

  lemma FirstStep(s: State, body: string) returns (events: seq<Event>)
    ensures CanRun(s, events) && After(s, events) == WithLast(s, s.entry, body, Arrived)
  {
    events := [Arrive(body)];
    OneMoreStep(s, [], Arrive(body));
    assert [] + [Arrive(body)] == events;
  }

  lemma ClaimStep(s: State, events: seq<Event>, body: string) returns (more: seq<Event>)
    requires CanRun(s, events) && After(s, events) == WithLast(s, s.entry, body, Arrived)
    ensures CanRun(s, more)
    ensures After(s, more) == if s.entry.Absent? then WithLast(s, Running(body), body, Executing(NOTHING_SENT))
                              else WithLast(s, s.entry, body, Retrying)
  {
    hide CanRun, After;
    OneMoreStep(s, events, Claim(|s.requests|));
    more := events + [Claim(|s.requests|)];
  }

  /** A step of the newest request. */
  lemma LastStep(s: State, events: seq<Event>, entry: Entry, body: string, p: Phase, e: Event)
    returns (more: seq<Event>)
    requires CanRun(s, events) && After(s, events) == WithLast(s, entry, body, p)
    requires !e.Arrive? && !e.Claim? && e.i == |s.requests| && Enabled(WithLast(s, entry, body, p), e)
    ensures CanRun(s, more)
    ensures After(s, more) == WithLast(s, EntryAfter(entry, body, p, e), body, PhaseAfter(entry, body, p, e))
  {
    hide CanRun, After;
    OneMoreStep(s, events, e);
    more := events + [e];
  }

  function EntryAfter(entry: Entry, body: string, p: Phase, e: Event): Entry {
    if e.Settle? && p.Returned? then Settled(body, p.out) else if e.Release? then Absent else entry
  }

  function PhaseAfter(entry: Entry, body: string, p: Phase, e: Event): Phase {
    match e
    case Emit(_, m) => if p.Executing? then Executing(AddMessage(p.out, m)) else p
    case Return(_) => if p.Executing? then Returned(p.out) else p
    case Raise(_) => Raised
    case Settle(_) => if p.Returned? then Ended(Own(p.out)) else p
    case Release(_) => Ended(Failed)
    case Respond(_) => Ended(AnswerRetry(entry, body))
    case _ => Dead
  }
}

/** Uploads sent in numbered chunks: which are accepted, and what they are assembled into. */
module ChunkedUpload {
  import opened Lib

  type Bytes = seq<bv8>

  const MAX_CHUNKS := 10_000

  /** The sizes the client declared when it started. */
  datatype Info = Info(totalChunks: int, totalSize: int)

  /** One user's upload. */
  datatype Key = Key(userId: string, uploadId: string)

  /** `-(-a // b)`: Python's floor division on a negated dividend rounds up. */
  function CeilDiv(a: int, b: int): (q: int)
    requires b > 0
    ensures (q - 1) * b < a <= q * b
  {
    -((-a) / b)
  }

  function Min(a: int, b: int): (m: int)
    ensures m <= a && m <= b && (m == a || m == b)
  {
    if a <= b then a else b
  }

  predicate IsUploadId(s: string) {
    8 <= |s| <= 64 && forall i | 0 <= i < |s| ::
      'A' <= s[i] <= 'Z' || 'a' <= s[i] <= 'z' || '0' <= s[i] <= '9' || s[i] == '_' || s[i] == '-'
  }

  /** An id is 8 to 64 letters, digits, underscores and hyphens. */
  lemma UploadIdMeans(s: string)
    ensures IsUploadId(s) <==> 8 <= |s| <= 64 && forall c | c in s ::
      'A' <= c <= 'Z' || 'a' <= c <= 'z' || '0' <= c <= '9' || c == '_' || c == '-'
  {
    assert forall i | 0 <= i < |s| :: s[i] in s;
  }

  /** The declared sizes `start_upload` accepts. */
  predicate Acceptable(info: Info, maxTotal: int, maxChunk: int)
    requires maxChunk > 0
  {
    && 0 < info.totalSize <= maxTotal
    && CeilDiv(info.totalSize, maxChunk) <= info.totalChunks <= Min(info.totalSize, MAX_CHUNKS)
  }

  /** The chunk sizes `save_chunk` accepts. */
  predicate Fits(info: Info, number: int, size: int, maxChunk: int)
    requires info.totalChunks > 0
  {
    && 1 <= number <= info.totalChunks
    && 0 < size <= Min(maxChunk, 2 * CeilDiv(info.totalSize, info.totalChunks))
  }

  // ---- what the limits promise -----------------------------------------------------------------------------------

  function Sum(sizes: seq<int>): int {
    if sizes == [] then 0 else Sum(sizes[..|sizes| - 1]) + sizes[|sizes| - 1]
  }

  lemma Acceptables(info: Info, maxTotal: int, maxChunk: int)
    requires maxChunk > 0 && Acceptable(info, maxTotal, maxChunk)
    ensures 0 < info.totalChunks <= info.totalSize
  {
  }

  lemma {:induction false} SumAtMost(sizes: seq<int>, each: int)
    requires forall i | 0 <= i < |sizes| :: sizes[i] <= each
    ensures Sum(sizes) <= |sizes| * each
  {
    if sizes != [] {
      SumAtMost(sizes[..|sizes| - 1], each);
    }
  }

  /** However the chunks of an accepted upload are sized, together they stay below four times the declared size. */
  lemma StagedStaysBounded(info: Info, sizes: seq<int>, maxTotal: int, maxChunk: int)
    requires maxChunk > 0 && Acceptable(info, maxTotal, maxChunk) && |sizes| <= info.totalChunks
    requires forall i | 0 <= i < |sizes| :: sizes[i] <= Min(maxChunk, 2 * CeilDiv(info.totalSize, info.totalChunks))
    ensures Sum(sizes) <= 2 * (info.totalSize + info.totalChunks - 1) < 4 * info.totalSize
  {
    hide CeilDiv;
    Acceptables(info, maxTotal, maxChunk);
    var average := CeilDiv(info.totalSize, info.totalChunks);
    SumAtMost(sizes, 2 * average);
    TwiceTheAverage(info.totalSize, info.totalChunks, average, |sizes|);
  }

  lemma TwiceTheAverage(total: int, n: int, average: int, k: int)
    requires 0 < n <= total && (average - 1) * n < total <= average * n && 0 <= k <= n
    ensures k * (2 * average) <= 2 * (total + n - 1)
  {
  }

  lemma Positive(a: int, b: int)
    requires a * b > 0 && b > 0
    ensures a > 0
  {
  }

  lemma Monotone(a: int, b: int, k: int)
    requires a <= b && k >= 0
    ensures a * k <= b * k
  {
    assert (b - a) * k >= 0;
  }

  /** That many chunks are enough exactly if they can hold the whole. */
  lemma CeilMeans(a: int, b: int, n: int)
    requires b > 0
    ensures CeilDiv(a, b) <= n <==> a <= n * b
  {
    hide CeilDiv;
    var q := CeilDiv(a, b);
    if q <= n {
      Monotone(q, n, b);
    } else {
      Monotone(n, q - 1, b);
    }
  }

  /** Sizes of an even split: `extra` chunks of one byte more than the rest. */
  function EvenSplit(chunks: nat, size: nat, extra: nat): (sizes: seq<int>)
    ensures |sizes| == chunks
    ensures forall i | 0 <= i < chunks :: sizes[i] == size + if i < extra then 1 else 0
  {
    seq(chunks, i requires 0 <= i < chunks => size + if i < extra then 1 else 0)
  }

  lemma {:induction false} EvenSplitSum(chunks: nat, size: nat, extra: nat)
    requires extra <= chunks
    ensures Sum(EvenSplit(chunks, size, extra)) == chunks * size + extra
  {
    if chunks > 0 {
      var all := EvenSplit(chunks, size, extra);
      var less := EvenSplit(chunks - 1, size, if extra == chunks then extra - 1 else extra);
      assert all[..chunks - 1] == less;
      EvenSplitSum(chunks - 1, size, if extra == chunks then extra - 1 else extra);
    }
  }

  /** Accepted sizes can always be met: the even split has the declared length and every chunk of it fits. */
  lemma EvenSplitIsAccepted(info: Info, maxTotal: int, maxChunk: int) returns (sizes: seq<int>)
    requires maxChunk > 0 && Acceptable(info, maxTotal, maxChunk)
    ensures info.totalChunks > 0 && |sizes| == info.totalChunks && Sum(sizes) == info.totalSize
    ensures forall i | 0 <= i < |sizes| :: Fits(info, i + 1, sizes[i], maxChunk)
  {
    hide CeilDiv;
    Acceptables(info, maxTotal, maxChunk);
    var size, extra := EvenSizes(info.totalChunks, info.totalSize, maxChunk);
    sizes := EvenSplit(info.totalChunks, size, extra);
    EvenSplitSum(info.totalChunks, size, extra);
  }

  lemma EvenSizes(n: int, total: int, maxChunk: int) returns (size: int, extra: int)
    requires 0 < n <= total && maxChunk > 0 && CeilDiv(total, maxChunk) <= n
    ensures total == n * size + extra && 0 <= extra < n && 0 < size
    ensures size + (if extra > 0 then 1 else 0) <= Min(maxChunk, 2 * CeilDiv(total, n))
  {
    hide CeilDiv;
    size, extra := total / n, total % n;
    var average := CeilDiv(total, n);
    assert total == n * size + extra;
    Monotone(CeilDiv(total, maxChunk), n, maxChunk);
    LargestAtMost(n, total, size, extra, maxChunk);
    assert n * average == average * n;
    LargestAtMost(n, total, size, extra, average);
    Positive(average, n);
  }

  /** Chunks of `cap` bytes would be enough, so the largest of the even split is no larger. */
  lemma LargestAtMost(n: int, total: int, size: int, extra: int, cap: int)
    requires total == n * size + extra && 0 <= extra < n && total <= n * cap
    ensures size + (if extra > 0 then 1 else 0) <= cap
  {
    assert n * cap == cap * n && n * size == size * n && (cap + 1) * n == cap * n + n;
    if size > cap {
      Monotone(cap + 1, size, n);
    } else if size == cap {
      Monotone(cap, size, n);
    }
  }

  // ---- the handler ----------------------------------------------------------------------------------------------

  type Chunks = map<nat, Bytes>

  function Concat(chunks: Chunks, n: nat): Bytes
    requires forall i: nat | 1 <= i <= n :: i in chunks
  {
    if n == 0 then [] else Concat(chunks, n - 1) + chunks[n]
  }

  /** Each chunk stands right behind those of lower numbers, and nothing else is in between. */
  lemma {:induction false} ChunkStandsAt(chunks: Chunks, k: nat, n: nat)
    requires 1 <= k <= n && forall i: nat | 1 <= i <= n :: i in chunks
    ensures var at := |Concat(chunks, k - 1)|;
      at + |chunks[k]| <= |Concat(chunks, n)| && Concat(chunks, n)[at..at + |chunks[k]|] == chunks[k]
    ensures |Concat(chunks, k)| == |Concat(chunks, k - 1)| + |chunks[k]| && |Concat(chunks, 0)| == 0
    decreases n
  {
    if k < n {
      ChunkStandsAt(chunks, k, n - 1);
    }
  }

  /** Exactly the numbers 1 to `total` are staged. */
  ghost predicate Complete(total: int, chunks: Chunks) {
    forall i: nat :: i in chunks <==> 1 <= i <= total
  }

  /** `list(range(1, total + 1))` */
  function NumbersTo(total: int): (numbers: seq<nat>)
    ensures Ascending(numbers)
    ensures forall i: nat :: i in numbers <==> 1 <= i <= total
  {
    if total <= 0 then [] else
      var front := NumbersTo(total - 1);
      assert forall i | 0 <= i < |front| :: front[i] in front;
      front + [total]
  }

  lemma RestIsGreater(a: seq<nat>)
    requires a != [] && Ascending(a)
    ensures Ascending(a[1..]) && forall x :: x in a <==> x == a[0] || x in a[1..]
    ensures forall x | x in a[1..] :: a[0] < x
  {
    assert a == [a[0]] + a[1..];
  }

  /** Two ascending lists of the same numbers are one list. */
  lemma {:induction false} AscendingIsUnique(a: seq<nat>, b: seq<nat>)
    requires Ascending(a) && Ascending(b) && forall i: nat :: i in a <==> i in b
    ensures a == b
  {
    if a == [] {
      assert forall i | 0 <= i < |b| :: b[i] in b;
    } else {
      assert a[0] in b && b[0] in b;
      RestIsGreater(a);
      RestIsGreater(b);
      assert a == [a[0]] + a[1..] && b == [b[0]] + b[1..];
      AscendingIsUnique(a[1..], b[1..]);
    }
  }

  class Handler {
    const maxTotal: int
    const maxChunk: int
    var sessions: map<Key, Info>
    var staged: map<Key, Chunks>

    constructor (maxTotal: int, maxChunk: int)
      requires maxChunk > 0
      ensures Valid() && sessions == map[] && staged == map[]
      ensures this.maxTotal == maxTotal && this.maxChunk == maxChunk
    {
      this.maxTotal, this.maxChunk := maxTotal, maxChunk;
      sessions, staged := map[], map[];
    }

    /** Every session was accepted, and every staged chunk fits its session. */
    ghost predicate Valid()
      reads this
    {
      && maxChunk > 0
      && (forall k | k in sessions :: Acceptable(sessions[k], maxTotal, maxChunk))
      && (forall k | k in staged :: k in sessions && AllFit(sessions[k], staged[k], maxChunk))
    }

    function Staged(k: Key): (chunks: Chunks)
      reads this
      ensures k in staged ==> chunks == staged[k]
      ensures k !in staged ==> chunks == map[]
    {
      if k in staged then staged[k] else map[]
    }

    /** `start_upload`: a second start for the same user and id keeps the first record. */
    method StartUpload(k: Key, info: Info) returns (r: Result<Info>)
      requires Valid()
      modifies this
      ensures Valid() && staged == old(staged)
      ensures r.Ok? <==> IsUploadId(k.uploadId) && Acceptable(info, maxTotal, maxChunk)
      ensures r.Ok? <==>
        && 8 <= |k.uploadId| <= 64
        && (forall c | c in k.uploadId ::
              'A' <= c <= 'Z' || 'a' <= c <= 'z' || '0' <= c <= '9' || c == '_' || c == '-')
        && 1 <= info.totalSize <= maxTotal && info.totalSize <= info.totalChunks * maxChunk
        && info.totalChunks <= info.totalSize && info.totalChunks <= 10_000
      ensures r.Ok? && k !in old(sessions) ==> r.value == info && sessions == old(sessions)[k := info]
      ensures r.Ok? && k in old(sessions) ==> r.value == old(sessions)[k] && sessions == old(sessions)
      ensures r.Err? ==> sessions == old(sessions)
    {
      UploadIdMeans(k.uploadId);
      CeilMeans(info.totalSize, maxChunk, info.totalChunks);
      if !IsUploadId(k.uploadId) || !(0 < info.totalSize <= maxTotal) {
        return Err;
      }
      var minChunks := CeilDiv(info.totalSize, maxChunk);
      if !(minChunks <= info.totalChunks <= Min(info.totalSize, MAX_CHUNKS)) {
        return Err;
      }
      if k !in sessions {
        sessions := sessions[k := info];
        return Ok(info);
      }
      r := Ok(sessions[k]);
    }

    /** `save_chunk`: exactly the fitting chunks are staged; a retried number replaces the earlier attempt. */
    method SaveChunk(k: Key, number: int, data: Bytes) returns (saved: bool)
      requires Valid()
      modifies this
      ensures Valid() && sessions == old(sessions)
      ensures saved <==> k in sessions && sessions[k].totalChunks > 0 && Fits(sessions[k], number, |data|, maxChunk)
      ensures saved <==>
        && k in sessions && 1 <= number <= sessions[k].totalChunks && 1 <= |data| <= maxChunk
        && |data| <= 2 * CeilDiv(sessions[k].totalSize, sessions[k].totalChunks)
      ensures !saved ==> staged == old(staged)
      ensures saved ==> k in staged && staged == old(staged)[k := staged[k]]
      ensures saved ==> staged[k] == (if k in old(staged) then old(staged)[k] else map[])[number := data]
    {
      if k !in sessions {
        return false;
      }
      var info := sessions[k];
      if !(1 <= number <= info.totalChunks) {
        return false;
      }
      Acceptables(info, maxTotal, maxChunk);
      var average := CeilDiv(info.totalSize, info.totalChunks);
      if data == [] || |data| > Min(maxChunk, 2 * average) {
        return false;
      }
      staged := staged[k := Staged(k)[number := data]];
      saved := true;
    }

    /** `received_chunks`: the staged numbers in ascending order. */
    method ReceivedChunks(k: Key) returns (numbers: seq<nat>)
      ensures Ascending(numbers) && forall i: nat :: i in numbers <==> i in Staged(k)
    {
      numbers := Sorted(Staged(k).Keys);
      assert forall i | 0 <= i < |numbers| :: numbers[i] in Staged(k).Keys;
    }

    /** `is_complete`: the session is known and its staged numbers are 1 to the declared count, no more and no less. */
    method IsComplete(k: Key) returns (complete: bool)
      ensures complete <==> k in sessions && Complete(sessions[k].totalChunks, Staged(k))
    {
      if k !in sessions {
        return false;
      }
      var received := ReceivedChunks(k);
      var wanted := NumbersTo(sessions[k].totalChunks);
      complete := received == wanted;
      if Complete(sessions[k].totalChunks, Staged(k)) {
        AscendingIsUnique(received, wanted);
      }
    }

    /** `open_assembled`, read to its end: nothing unless complete; else the latest chunk of each number, in
        order, if together they have the declared length. */
    method Assemble(k: Key) returns (r: Option<Result<Bytes>>)
      requires Valid()
      ensures r.Some? <==> k in sessions && Complete(sessions[k].totalChunks, Staged(k))
      ensures r.Some? ==> sessions[k].totalChunks >= 0
      ensures r.Some? ==>
        var all := Concat(Staged(k), sessions[k].totalChunks);
        r.value == if |all| == sessions[k].totalSize then Ok(all) else Err
    {
      var complete := IsComplete(k);
      if !complete {
        return None;
      }
      var info := sessions[k];
      Acceptables(info, maxTotal, maxChunk);
      var total := 0;
      var stream: Bytes := [];
      for number := 1 to info.totalChunks + 1
        invariant stream == Concat(Staged(k), number - 1) && total == |stream|
      {
        total := total + |Staged(k)[number]|;
        stream := stream + Staged(k)[number];
      }
      if total != info.totalSize {
        return Some(Err);
      }
      r := Some(Ok(stream));
    }

    /** `cleanup` */
    method Cleanup(k: Key)
      requires Valid()
      modifies this
      ensures Valid() && sessions == old(sessions) - {k} && staged == old(staged) - {k}
    {
      staged := staged - {k};
      sessions := sessions - {k};
    }
  }

  predicate AllFit(info: Info, chunks: Chunks, maxChunk: int) {
    info.totalChunks > 0 && forall i | i in chunks :: Fits(info, i, |chunks[i]|, maxChunk)
  }

  /** The bytes a valid handler has staged for a session never reach four times its declared size. */
  lemma StagedBytesStayBounded(info: Info, chunks: Chunks, numbers: seq<nat>, maxTotal: int, maxChunk: int)
    requires maxChunk > 0 && Acceptable(info, maxTotal, maxChunk) && AllFit(info, chunks, maxChunk)
    requires (forall i | 0 <= i < |numbers| :: numbers[i] in chunks) && Distinct(numbers)
    ensures Sum(SizesOf(chunks, numbers)) < 4 * info.totalSize
  {
    DistinctAreFew(numbers, info.totalChunks);
    StagedStaysBounded(info, SizesOf(chunks, numbers), maxTotal, maxChunk);
  }

  predicate Distinct(numbers: seq<nat>) {
    forall i, j | 0 <= i < j < |numbers| :: numbers[i] != numbers[j]
  }

  function SizesOf(chunks: Chunks, numbers: seq<nat>): (sizes: seq<int>)
    requires forall i | 0 <= i < |numbers| :: numbers[i] in chunks
    ensures |sizes| == |numbers| && forall i | 0 <= i < |sizes| :: sizes[i] == |chunks[numbers[i]]|
  {
    seq(|numbers|, i requires 0 <= i < |numbers| => |chunks[numbers[i]]|)
  }

  lemma {:induction false} DistinctAreFew(numbers: seq<nat>, n: int)
    requires Distinct(numbers) && n >= 0 && forall i | 0 <= i < |numbers| :: 1 <= numbers[i] <= n
    ensures |numbers| <= n
    decreases n
  {
    assert numbers == [] || 1 <= numbers[0] <= n;
    if n > 0 && n in numbers {
      var k :| 0 <= k < |numbers| && numbers[k] == n;
      var rest := numbers[..k] + numbers[k + 1..];
      DistinctAreFew(rest, n - 1);
    } else if n > 0 {
      DistinctAreFew(numbers, n - 1);
    }
  }
}

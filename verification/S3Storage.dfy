/** Storing a stream of unknown length in an object store: one PUT, or a multipart upload. */
module S3Storage {
  import opened Lib

  type Bytes = seq<bv8>

  /** A stored object: sent whole, or assembled from parts. */
  datatype Object = Whole(body: Bytes) | Assembled(parts: seq<Bytes>)

  function Concat(pieces: seq<Bytes>): (all: Bytes) {
    if pieces == [] then [] else Concat(pieces[..|pieces| - 1]) + pieces[|pieces| - 1]
  }

  function Content(o: Object): Bytes {
    match o
    case Whole(body) => body
    case Assembled(parts) => Concat(parts)
  }

  /** All parts but the last have the part size; none is empty or larger. */
  predicate GoodParts(parts: seq<Bytes>, partSize: nat) {
    && parts != []
    && (forall i | 0 <= i < |parts| - 1 :: |parts[i]| == partSize)
    && 0 < |parts[|parts| - 1]| <= partSize
  }

  predicate GoodObject(o: Object, partSize: nat) {
    match o
    case Whole(body) => |body| < partSize
    case Assembled(parts) => GoodParts(parts, partSize) && |parts[0]| == partSize
  }

  lemma {:induction false} LengthOfParts(parts: seq<Bytes>, partSize: nat)
    requires GoodParts(parts, partSize)
    ensures |Concat(parts)| == (|parts| - 1) * partSize + |parts[|parts| - 1]|
  {
    var front := parts[..|parts| - 1];
    if front != [] {
      LengthOfParts(front, partSize);
      assert |front| * partSize == (|front| - 1) * partSize + partSize;
    }
  }

  lemma {:induction false} PartsAreDetermined(a: seq<Bytes>, b: seq<Bytes>, partSize: nat)
    requires GoodParts(a, partSize) && GoodParts(b, partSize) && Concat(a) == Concat(b)
    ensures a == b
  {
    LengthOfParts(a, partSize);
    LengthOfParts(b, partSize);
    SameNumberOfParts(|a| - 1, |a[|a| - 1]|, |b| - 1, |b[|b| - 1]|, partSize);
    var x, y := Concat(a[..|a| - 1]), Concat(b[..|b| - 1]);
    assert Concat(a) == x + a[|a| - 1] && Concat(b) == y + b[|b| - 1] && |x| == |y|;
    assert x == Concat(a)[..|x|] && y == Concat(b)[..|x|];
    assert a[|a| - 1] == Concat(a)[|x|..] && b[|b| - 1] == Concat(b)[|x|..];
    if |a| > 1 {
      PartsAreDetermined(a[..|a| - 1], b[..|b| - 1], partSize);
      assert a == a[..|a| - 1] + [a[|a| - 1]] && b == b[..|b| - 1] + [b[|b| - 1]];
    }
  }

  /** However a stream is chopped on the way in, the same content is stored as the same object. */
  lemma ObjectIsDetermined(a: Object, b: Object, partSize: nat)
    requires GoodObject(a, partSize) && GoodObject(b, partSize) && Content(a) == Content(b)
    ensures a == b
  {
    match (a, b)
    case (Assembled(p), Assembled(q)) => PartsAreDetermined(p, q, partSize);
    case (Assembled(p), Whole(_)) => AssembledIsLong(p, partSize);
    case (Whole(_), Assembled(q)) => AssembledIsLong(q, partSize);
    case _ =>
  }

  lemma AssembledIsLong(parts: seq<Bytes>, partSize: nat)
    requires GoodObject(Assembled(parts), partSize)
    ensures |Concat(parts)| >= partSize
  {
  }

  lemma SameNumberOfParts(m: nat, x: nat, n: nat, y: nat, size: nat)
    requires 0 < x <= size && 0 < y <= size && m * size + x == n * size + y
    ensures m == n && x == y
  {
    FewerIsSmaller(m, n, size);
    FewerIsSmaller(n, m, size);
  }

  lemma {:induction false} FewerIsSmaller(m: nat, n: nat, size: nat)
    ensures m < n ==> m * size + size <= n * size
  {
    if m + 1 < n {
      FewerIsSmaller(m, n - 1, size);
    }
  }

  function WithPart(parts: map<nat, Bytes>, number: nat, body: Bytes): map<nat, Bytes> {
    parts[number := body]
  }

  /** The bucket, and the multipart uploads that are neither completed nor aborted. */
  class Bucket {
    var objects: map<string, Object>
    var open: map<nat, map<nat, Bytes>>
    var nextUpload: nat

    constructor ()
      ensures Valid() && objects == map[] && open == map[]
    {
      objects, open, nextUpload := map[], map[], 0;
    }

    ghost predicate Valid()
      reads this
    {
      forall u | u in open :: u < nextUpload
    }

    method CreateMultipartUpload() returns (upload: nat)
      requires Valid()
      modifies this
      ensures Valid() && objects == old(objects) && upload !in old(open) && open == old(open)[upload := map[]]
    {
      upload := nextUpload;
      nextUpload := nextUpload + 1;
      open := open[upload := map[]];
    }

    method UploadPart(upload: nat, number: nat, body: Bytes)
      requires Valid() && upload in open
      modifies this
      ensures Valid() && objects == old(objects)
      ensures open == old(open)[upload := WithPart(old(open)[upload], number, body)]
    {
      open := open[upload := WithPart(open[upload], number, body)];
    }

    method CompleteMultipartUpload(key: string, upload: nat, numbers: seq<nat>)
      requires Valid() && upload in open && forall n | n in numbers :: n in open[upload]
      modifies this
      ensures Valid() && open == old(open) - {upload}
      ensures objects == old(objects)[key := Assembled(Listed(old(open)[upload], numbers))]
    {
      objects := objects[key := Assembled(Listed(open[upload], numbers))];
      open := open - {upload};
    }

    method AbortMultipartUpload(upload: nat)
      requires Valid()
      modifies this
      ensures Valid() && objects == old(objects) && open == old(open) - {upload}
    {
      open := open - {upload};
    }

    method PutObject(key: string, body: Bytes)
      requires Valid()
      modifies this
      ensures Valid() && open == old(open) && objects == old(objects)[key := Whole(body)]
    {
      objects := objects[key := Whole(body)];
    }
  }

  /** The uploaded parts in the order their numbers are listed. */
  function Listed(parts: map<nat, Bytes>, numbers: seq<nat>): (q: seq<Bytes>)
    requires forall n | n in numbers :: n in parts
    ensures |q| == |numbers|
  {
    seq(|numbers|, i requires 0 <= i < |numbers| => parts[numbers[i]])
  }

  /** The variables `save_stream` shares with its nested `send_part`. */
  class StreamWriter {
    const bucket: Bucket
    const partSize: nat
    var buffer: Bytes
    var uploadId: Option<nat>
    var parts: seq<nat>
    ghost const others: map<nat, map<nat, Bytes>>
    ghost const objects: map<string, Object>
    ghost var sent: seq<Bytes>

    constructor (bucket: Bucket, partSize: nat)
      requires partSize >= 1 && bucket.Valid()
      ensures this.bucket == bucket && this.partSize == partSize
      ensures others == bucket.open && objects == bucket.objects
      ensures Valid() && buffer == [] && sent == []
    {
      this.bucket, this.partSize := bucket, partSize;
      buffer, uploadId, parts, sent := [], None, [], [];
      others, objects := bucket.open, bucket.objects;
    }

    /** What has been sent is held by the open upload, numbered from 1; nothing else in the bucket changed. */
    ghost predicate Valid()
      reads `uploadId, `parts, `sent, bucket
    {
      && bucket.Valid() && partSize >= 1 && bucket.objects == objects
      && (uploadId.None? <==> sent == []) && |parts| == |sent|
      && (uploadId.None? ==> bucket.open == others)
      && (uploadId.Some? ==>
            && uploadId.value !in others && uploadId.value in bucket.open
            && bucket.open == others[uploadId.value := bucket.open[uploadId.value]]
            && Holds(bucket.open[uploadId.value], parts, sent))
    }

    /** `send_part` */
    method SendPart(data: Bytes)
      requires Valid() && data != []
      modifies this, bucket
      ensures Valid() && sent == old(sent) + [data] && buffer == old(buffer)
    {
      if uploadId.None? {
        var id := bucket.CreateMultipartUpload();
        uploadId := Some(id);
      }
      var number := |parts| + 1;
      ghost var before := bucket.open[uploadId.value];
      bucket.UploadPart(uploadId.value, number, data);
      HoldsMore(before, parts, sent, data);
      parts := parts + [number];
      sent := sent + [data];
    }

    /** One chunk of the stream: full parts leave the buffer, the rest stays. */
    method Accept(chunk: Bytes)
      requires Valid() && |buffer| < partSize && AllFull(sent, partSize)
      modifies this, bucket
      ensures Valid() && |buffer| < partSize && AllFull(sent, partSize)
      ensures Concat(sent) + buffer == old(Concat(sent) + buffer) + chunk
    {
      hide Valid, Concat;
      buffer := buffer + chunk;
      ghost var all := Concat(sent) + buffer;
      while |buffer| >= partSize
        invariant Valid() && AllFull(sent, partSize)
        invariant Concat(sent) + buffer == all
        decreases |buffer|
      {
        ghost var before, data := sent, buffer[..partSize];
        SendPart(buffer[..partSize]);
        ConcatMore(before, data);
        assert buffer == data + buffer[partSize..];
        buffer := buffer[partSize..];
      }
    }

    /** After the last chunk: a single PUT if nothing was sent, else the rest as a last part. */
    method Finish(key: string)
      requires Valid() && |buffer| < partSize && AllFull(sent, partSize)
      modifies this, bucket
      ensures bucket.Valid() && bucket.open == others
      ensures bucket.objects.Keys == objects.Keys + {key}
      ensures forall k | k in objects && k != key :: bucket.objects[k] == objects[k]
      ensures GoodObject(bucket.objects[key], partSize)
      ensures Content(bucket.objects[key]) == old(Concat(sent) + buffer)
    {
      if uploadId.None? {
        assert Concat(sent) + buffer == buffer;
        bucket.PutObject(key, buffer);
        return;
      }
      if buffer != [] {
        ghost var before := sent;
        SendPart(buffer);
        ConcatMore(before, buffer);
      } else {
        assert Concat(sent) + buffer == Concat(sent);
      }
      ListedIsSent(bucket.open[uploadId.value], parts, sent);
      assert bucket.open - {uploadId.value} == others;
      bucket.CompleteMultipartUpload(key, uploadId.value, parts);
    }
  }

  predicate AllFull(sent: seq<Bytes>, partSize: nat) {
    forall i | 0 <= i < |sent| :: |sent[i]| == partSize
  }

  /** Part number i holds the i-th piece sent. */
  ghost predicate Holds(stored: map<nat, Bytes>, parts: seq<nat>, sent: seq<Bytes>) {
    |parts| == |sent| && forall i | 0 <= i < |parts| :: parts[i] == i + 1 && i + 1 in stored && stored[i + 1] == sent[i]
  }

  lemma HoldsMore(stored: map<nat, Bytes>, parts: seq<nat>, sent: seq<Bytes>, data: Bytes)
    requires Holds(stored, parts, sent)
    ensures Holds(WithPart(stored, |parts| + 1, data), parts + [|parts| + 1], sent + [data])
  {
    var numbers, after := parts + [|parts| + 1], WithPart(stored, |parts| + 1, data);
    forall i | 0 <= i < |numbers|
      ensures numbers[i] == i + 1 && i + 1 in after && after[i + 1] == (sent + [data])[i]
    {
      assert i < |parts| ==> parts[i] == i + 1 && stored[i + 1] == sent[i];
    }
  }

  lemma ListedIsSent(stored: map<nat, Bytes>, parts: seq<nat>, sent: seq<Bytes>)
    requires Holds(stored, parts, sent)
    ensures (forall n | n in parts :: n in stored) && Listed(stored, parts) == sent
  {
  }

  lemma ConcatMore(pieces: seq<Bytes>, data: Bytes)
    ensures Concat(pieces + [data]) == Concat(pieces) + data
  {
    assert (pieces + [data])[..|pieces|] == pieces;
  }

  /** `save_stream`: the object holds exactly the stream's bytes in well-sized parts; a failing stream, like a
      refused overwrite, leaves the bucket as it was, with no upload left open. */
  method SaveStream(bucket: Bucket, partSize: nat, key: string, chunks: seq<Bytes>, fails: bool, overwrite: bool)
    returns (r: Result<bool>)
    requires bucket.Valid() && partSize >= 1
    modifies bucket
    ensures bucket.Valid() && bucket.open == old(bucket.open)
    ensures r == Ok(true) <==> (overwrite || key !in old(bucket.objects)) && !fails
    ensures r.Err? <==> (overwrite || key !in old(bucket.objects)) && fails
    ensures r != Ok(true) ==> bucket.objects == old(bucket.objects)
    ensures r == Ok(true) ==> bucket.objects.Keys == old(bucket.objects).Keys + {key}
    ensures r == Ok(true) ==>
      GoodObject(bucket.objects[key], partSize) && Content(bucket.objects[key]) == Concat(chunks)
    ensures forall k | k in old(bucket.objects) && k != key ::
      k in bucket.objects && bucket.objects[k] == old(bucket.objects[k])
  {
    if !overwrite && key in bucket.objects {
      return Ok(false);
    }
    var w := new StreamWriter(bucket, partSize);
    for i := 0 to |chunks|
      invariant w.bucket == bucket && w.Valid() && |w.buffer| < w.partSize && AllFull(w.sent, partSize)
      invariant Concat(w.sent) + w.buffer == Concat(chunks[..i])
    {
      assert chunks[..i + 1][..i] == chunks[..i];
      w.Accept(chunks[i]);
    }
    assert chunks[..|chunks|] == chunks;
    if fails {
      if w.uploadId.Some? {
        assert bucket.open - {w.uploadId.value} == w.others;
        bucket.AbortMultipartUpload(w.uploadId.value);
      }
      return Err;
    }
    w.Finish(key);
    r := Ok(true);
  }
}

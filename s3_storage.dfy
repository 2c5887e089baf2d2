/** The object store of `backend/app/storage/s3_storage.py`: object keys, the
    multipart upload of a stored file in 8 MiB parts, deletion, and the choice
    of endpoint for presigned download links. The S3 calls themselves are
    inputs; the bucket is one map from key to bytes. */
module S3Storage {
  import opened Common

  type Month = m: int | 1 <= m <= 12 witness 1

  /** `strftime("%m")`: the month as two digits. */
  function Pad2(month: Month): (r: string)
    ensures |r| == 2 && IsDigit(r[0]) && IsDigit(r[1])
    ensures (r[0] as int - '0' as int) * 10 + (r[1] as int - '0' as int) == month
  {
    [DigitChar(month / 10), DigitChar(month % 10)]
  }

  /** The five segments of an object key. */
  function KeySegments(fileId: string, filename: string, year: nat, month: Month): seq<string>
  {
    ["files", NatToString(year), Pad2(month), fileId, Basename(filename)]
  }

  /** `build_key`: "files/<year>/<month>/<file_id>/<basename>". */
  function BuildKey(fileId: string, filename: string, year: nat, month: Month): (r: string)
    ensures StartsWith(r, "files/")
  {
    var segs := KeySegments(fileId, filename, year, month);
    var r := Join(segs, '/');
    assert r == "files" + "/" + Join(segs[1..], '/');
    assert r[..6] == "files/";
    r
  }

  /** The key's segments are exactly the five parts, so directory components
      of the supplied name never reach the key. */
  lemma BuildKeySegments(fileId: string, filename: string, year: nat, month: Month)
    requires '/' !in fileId
    ensures Split(BuildKey(fileId, filename, year, month), '/') == KeySegments(fileId, filename, year, month)
  {
    var segs := KeySegments(fileId, filename, year, month);
    assert '/' !in NatToString(year);
    assert '/' !in Pad2(month);
    assert forall k :: 0 <= k < |segs| ==> '/' !in segs[k];
    SplitJoin(segs, '/');
  }

  /** The last segment of a key is the basename of the supplied name. */
  lemma BuildKeyEndsWithBasename(fileId: string, filename: string, year: nat, month: Month)
    ensures Basename(BuildKey(fileId, filename, year, month)) == Basename(filename)
  {
    var k := BuildKey(fileId, filename, year, month);
    var b := Basename(filename);
    JoinEndsWithLast(KeySegments(fileId, filename, year, month), '/');
    var i := |k| - |b| - 1;
    assert k[i + 1..] == b;
    assert forall t :: i < t < |k| ==> k[t] == b[t - i - 1];
    assert LastIndexOf(k, '/') == i;
  }

  // ---------------------------------------------------------------- multipart

  const PartSize: nat := 8 * 1024 * 1024

  /** The successive `f.read(part_size)` results until the empty read. */
  function Chunks(content: seq<Byte>, size: nat): (r: seq<seq<Byte>>)
    requires size > 0
    ensures forall i :: 0 <= i < |r| ==> 0 < |r[i]| <= size
    decreases |content|
  {
    if content == [] then []
    else if |content| <= size then [content]
    else [content[..size]] + Chunks(content[size..], size)
  }

  function Flatten(parts: seq<seq<Byte>>): seq<Byte>
  {
    if parts == [] then [] else parts[0] + Flatten(parts[1..])
  }

  /** Read in order and put together, the parts are the file. */
  lemma {:induction false} ChunksFlatten(content: seq<Byte>, size: nat)
    requires size > 0
    ensures Flatten(Chunks(content, size)) == content
    decreases |content|
  {
    if |content| > size {
      var rest := Chunks(content[size..], size);
      ChunksFlatten(content[size..], size);
      assert Chunks(content, size)[1..] == rest;
      assert content == content[..size] + content[size..];
    } else if content != [] {
      assert Chunks(content, size)[1..] == [];
    }
  }

  /** Every part but the last is full. */
  lemma {:induction false} ChunksFull(content: seq<Byte>, size: nat)
    requires size > 0
    ensures forall i :: 0 <= i < |Chunks(content, size)| - 1 ==> |Chunks(content, size)[i]| == size
    decreases |content|
  {
    if |content| > size {
      ChunksFull(content[size..], size);
      var r := Chunks(content, size);
      assert forall i :: 1 <= i < |r| ==> r[i] == Chunks(content[size..], size)[i - 1];
    }
  }

  /** One read: the first chunk, then the chunks of what is left. */
  lemma ChunksStep(rest: seq<Byte>, size: nat)
    requires size > 0 && rest != []
    ensures var n := if |rest| < size then |rest| else size;
      Chunks(rest, size) == [rest[..n]] + Chunks(rest[n..], size)
  {
    if |rest| <= size {
      assert rest[|rest|..] == [];
      assert rest[..|rest|] == rest;
    }
  }

  /** One entry of the `Parts` list sent with `complete_multipart_upload`. */
  datatype CompletedPart = CompletedPart(etag: string, partNumber: nat)

  datatype UploadResult =
    | Uploaded(parts: seq<CompletedPart>)
    /** The exception re-raised, and whether the multipart upload was aborted. */
    | Failed(message: string, aborted: bool)

  /** Part i + 1 is the first one the store refuses, with message `msg`. */
  predicate FirstRejected(chunks: seq<seq<Byte>>, uploadPart: (nat, seq<Byte>) -> Result<string, string>,
                          i: nat, msg: string)
  {
    i < |chunks| && uploadPart(i + 1, chunks[i]) == Err(msg)
    && forall j :: 0 <= j < i ==> uploadPart(j + 1, chunks[j]).Ok?
  }

  /** The parts list for `content`: part i + 1 carries the ETag returned for
      the i-th chunk. */
  predicate PartsMatch(parts: seq<CompletedPart>, chunks: seq<seq<Byte>>,
                       uploadPart: (nat, seq<Byte>) -> Result<string, string>)
  {
    |parts| == |chunks|
    && forall i :: 0 <= i < |parts| ==>
         parts[i].partNumber == i + 1
         && uploadPart(i + 1, chunks[i]).Ok?
         && parts[i].etag == uploadPart(i + 1, chunks[i]).value
  }

  lemma RejectedHere(chunks: seq<seq<Byte>>, sent: seq<seq<Byte>>, data: seq<Byte>, parts: seq<CompletedPart>,
                     uploadPart: (nat, seq<Byte>) -> Result<string, string>, later: seq<seq<Byte>>)
    requires chunks == (sent + [data]) + later
    requires PartsMatch(parts, sent, uploadPart)
    requires uploadPart(|sent| + 1, data).Err?
    ensures FirstRejected(chunks, uploadPart, |sent|, uploadPart(|sent| + 1, data).error)
  {
    assert chunks[|sent|] == data;
    assert forall j :: 0 <= j < |sent| ==> chunks[j] == sent[j];
  }

  /** Appending the part the store accepted for the next chunk keeps the
      parts list in step with the chunks sent. */
  lemma PartsExtend(parts: seq<CompletedPart>, sent: seq<seq<Byte>>,
                    uploadPart: (nat, seq<Byte>) -> Result<string, string>, data: seq<Byte>)
    requires PartsMatch(parts, sent, uploadPart)
    requires uploadPart(|sent| + 1, data).Ok?
    ensures PartsMatch(parts + [CompletedPart(uploadPart(|sent| + 1, data).value, |sent| + 1)], sent + [data], uploadPart)
  {
    var parts' := parts + [CompletedPart(uploadPart(|sent| + 1, data).value, |sent| + 1)];
    var sent' := sent + [data];
    forall i | 0 <= i < |parts'|
      ensures parts'[i].partNumber == i + 1 && uploadPart(i + 1, sent'[i]).Ok?
              && parts'[i].etag == uploadPart(i + 1, sent'[i]).value
    {
      if i < |parts| {
        assert parts'[i] == parts[i] && sent'[i] == sent[i];
      }
    }
  }

  /** The read loop of `upload_file`: 8 MiB reads sent as parts 1, 2, 3, ...
      Either every chunk was accepted and `parts` lists them in order, or the
      first refusal is reported. */
  method SendParts(content: seq<Byte>, uploadPart: (nat, seq<Byte>) -> Result<string, string>)
    returns (parts: seq<CompletedPart>, failure: Option<string>)
    ensures failure.None? ==> PartsMatch(parts, Chunks(content, PartSize), uploadPart)
    ensures failure.Some? ==> exists i: nat :: FirstRejected(Chunks(content, PartSize), uploadPart, i, failure.value)
  {
    parts := [];
    var partNumber := 1;
    var rest := content;
    ghost var chunks := Chunks(content, PartSize);
    ghost var sent: seq<seq<Byte>> := [];
    while rest != []
      invariant chunks == sent + Chunks(rest, PartSize)
      invariant partNumber == |sent| + 1
      invariant PartsMatch(parts, sent, uploadPart)
      decreases |rest|
    {
      var n := if |rest| < PartSize then |rest| else PartSize;
      var data := rest[..n];
      ChunksAdvance(chunks, sent, rest);
      var resp := uploadPart(partNumber, data);
      if resp.Err? {
        RejectedHere(chunks, sent, data, parts, uploadPart, Chunks(rest[n..], PartSize));
        return parts, Some(resp.error);
      }
      PartsExtend(parts, sent, uploadPart, data);
      parts := parts + [CompletedPart(resp.value, partNumber)];
      sent := sent + [data];
      partNumber := partNumber + 1;
      rest := rest[n..];
    }
    assert sent + [] == sent;
    return parts, None;
  }

  /** One read of the loop moves the next chunk from the unread rest to the
      chunks sent. */
  lemma ChunksAdvance(chunks: seq<seq<Byte>>, sent: seq<seq<Byte>>, rest: seq<Byte>)
    requires rest != [] && chunks == sent + Chunks(rest, PartSize)
    ensures var n := if |rest| < PartSize then |rest| else PartSize;
      chunks == (sent + [rest[..n]]) + Chunks(rest[n..], PartSize)
  {
    var n := if |rest| < PartSize then |rest| else PartSize;
    ChunksStep(rest, PartSize);
    assert (sent + [rest[..n]]) + Chunks(rest[n..], PartSize) == sent + ([rest[..n]] + Chunks(rest[n..], PartSize));
  }

  /** The bucket: object key to stored bytes. */
  class ObjectStore {
    var objects: map<string, seq<Byte>>

    constructor(objects: map<string, seq<Byte>>)
      ensures this.objects == objects
    {
      this.objects := objects;
    }

    /** `upload_file`. `create` is the error `create_multipart_upload` raises,
        if any; `uploadPart(n, body)` the ETag or error for part `n`;
        `complete(parts)` the error `complete_multipart_upload` raises, if any.
        The object appears only once the upload is completed; any failure
        after creation aborts the upload. */
    method UploadFile(key: string, content: seq<Byte>, create: Option<string>,
                      uploadPart: (nat, seq<Byte>) -> Result<string, string>,
                      complete: seq<CompletedPart> -> Option<string>) returns (r: UploadResult)
      modifies this
      ensures r.Uploaded? ==> create.None? && PartsMatch(r.parts, Chunks(content, PartSize), uploadPart)
                              && complete(r.parts).None?
      ensures r.Uploaded? ==> objects == old(objects)[key := content]
      ensures r.Failed? ==> objects == old(objects) && (r.aborted <==> create.None?)
      ensures r.Failed? && create.None? ==>
                (exists i: nat :: FirstRejected(Chunks(content, PartSize), uploadPart, i, r.message))
                || (exists parts :: PartsMatch(parts, Chunks(content, PartSize), uploadPart)
                                    && complete(parts) == Some(r.message))
    {
      if create.Some? {
        return Failed(create.value, false);
      }
      var parts, failure := SendParts(content, uploadPart);
      if failure.Some? {
        return Failed(failure.value, true);
      }
      var err := complete(parts);
      if err.Some? {
        return Failed(err.value, true);
      }
      objects := objects[key := content];
      return Uploaded(parts);
    }

    /** `delete_object`: removing a key that is not there is not an error. */
    method DeleteObject(key: string)
      modifies this
      ensures objects == old(objects) - {key}
    {
      objects := objects - {key};
    }
  }

  // ---------------------------------------------------------------- presigning

  /** `s3_presign_endpoint_url or s3_endpoint_url`. */
  function PresignEndpoint(presignUrl: Option<string>, endpointUrl: Option<string>): (r: Option<string>)
    ensures presignUrl.Some? ==> r == presignUrl
    ensures presignUrl.None? ==> r == endpointUrl
  {
    if presignUrl.Some? then presignUrl else endpointUrl
  }

  /** The settings presigning reads. */
  datatype PresignSettings = PresignSettings(
    presignEndpointUrl: Option<string>,
    endpointUrl: Option<string>,
    bucket: string,
    ttlSeconds: int)

  /** `create_presigned_download_url`; `sign(endpoint, bucket, key, ttl)` is
      boto3's `generate_presigned_url` for `get_object`. */
  function CreatePresignedDownloadUrl(cfg: PresignSettings, key: string,
                                      sign: (Option<string>, string, string, int) -> string): (r: string)
    ensures r == sign(PresignEndpoint(cfg.presignEndpointUrl, cfg.endpointUrl), cfg.bucket, key, cfg.ttlSeconds)
  {
    sign(PresignEndpoint(cfg.presignEndpointUrl, cfg.endpointUrl), cfg.bucket, key, cfg.ttlSeconds)
  }
}

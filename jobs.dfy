/**
 * The job descriptor written by `submit` and the names it is stored under in
 * the input bucket.
 */
module Jobs {
  import opened Wrappers
  import opened Chunker
  import opened Strings

  /** The six worker sizes offered by the `instance_type` property. */
  datatype InstanceType = XLarge | XLarge2 | XLarge4 | XLarge8 | XLarge12 | XLarge16
  {
    /** The identifier the property hands to `submit`. */
    function Name(): string
    {
      match this
      case XLarge => "xlarge"
      case XLarge2 => "2xlarge"
      case XLarge4 => "4xlarge"
      case XLarge8 => "8xlarge"
      case XLarge12 => "12xlarge"
      case XLarge16 => "16xlarge"
    }
  }

  /**
   * The enum item whose identifier is `id`, if any: how the `instance_type`
   * property reads a value. It stands alone as a model of the property
   * declaration; `submit` receives the item itself.
   */
  function ParseInstanceType(id: string): (r: Option<InstanceType>)
    ensures r.Some? ==> r.value.Name() == id
    ensures r.None? ==> forall t: InstanceType :: t.Name() != id
  {
    if id == "xlarge" then Some(XLarge)
    else if id == "2xlarge" then Some(XLarge2)
    else if id == "4xlarge" then Some(XLarge4)
    else if id == "8xlarge" then Some(XLarge8)
    else if id == "12xlarge" then Some(XLarge12)
    else if id == "16xlarge" then Some(XLarge16)
    else None
  }

  /** Every item reads back from its identifier, so no two items share one. */
  lemma InstanceTypeRoundTrip(t: InstanceType, u: InstanceType)
    ensures ParseInstanceType(t.Name()) == Some(t)
    ensures t.Name() == u.Name() ==> t == u
  {
    match t
    case XLarge => assert t.Name() == "xlarge";
    case XLarge2 => assert t.Name() == "2xlarge";
    case XLarge4 => assert t.Name() == "4xlarge";
    case XLarge8 => assert t.Name() == "8xlarge";
    case XLarge12 => assert t.Name() == "12xlarge";
    case XLarge16 => assert t.Name() == "16xlarge";
  }

  /** The `instance_count` property holds a value in 1..6. */
  type InstanceCount = c: int | 1 <= c <= 6 witness 1

  /**
   * Assigning `n` to `instance_count`: Blender clamps it into the property's
   * range 1..6. It stands alone as a model of the property declaration;
   * `submit` receives the clamped `InstanceCount`.
   */
  function ClampInstanceCount(n: int): (c: InstanceCount)
    ensures 1 <= n <= 6 ==> c == n
    ensures n < 1 ==> c == 1
    ensures n > 6 ==> c == 6
  {
    if n < 1 then 1 else if n > 6 then 6 else n
  }

  /**
   * Any instance count the property allows chunks a range of at least six
   * frames; the default count of 1 makes the whole range a single chunk.
   */
  lemma InstanceCountChunks(c: InstanceCount, start: int, end: int)
    ensures FrameTotal(start, end) >= 6 ==> Chunks(c, start, end).Success? && |Chunks(c, start, end).value| == c
    ensures start <= end ==> Chunks(1, start, end) == Success([Chunk(start, end)])
  {
    ChunksPartition(c, start, end);
    if start <= end {
      var cs := Chunks(1, start, end).value;
      OffsetLast(FrameTotal(start, end), 1);
      assert cs == [Chunk(start, end)];
    }
  }

  /** The fields of the manifest dictionary. */
  datatype Manifest = Manifest(
    jobId: string,
    startFrame: int,
    endFrame: int,
    chunks: seq<Chunk>,
    instanceCount: int,
    instanceType: InstanceType,
    key: string,
    format: string)

  /**
   * The manifest `submit` writes: chunks from `get_chunks(count, start, end)`,
   * `key` the basename of the asset path and `format` the lower-cased file
   * format. Chunking raises for an unusable count, and then there is no manifest.
   */
  function BuildManifest(jobId: string, frameStart: int, frameEnd: int, count: int,
                         instanceType: InstanceType, filepath: string, fileFormat: string)
    : (r: Result<Manifest, ChunkError>)
    ensures r.Success? <==> 1 <= count <= FrameTotal(frameStart, frameEnd)
    ensures r.Failure? ==> r.error == Chunks(count, frameStart, frameEnd).error
    ensures r.Success? ==>
              && r.value.jobId == jobId
              && r.value.startFrame == frameStart && r.value.endFrame == frameEnd
              && r.value.instanceCount == count && r.value.instanceType == instanceType
              && |r.value.chunks| == count
              && ValidPartition(r.value.chunks, frameStart, frameEnd)
              && Balanced(r.value.chunks)
    ensures r.Success? ==> r.value.key == LastSegment(filepath) && r.value.format == Lower(fileFormat)
  {
    ChunksPartition(count, frameStart, frameEnd);
    match Chunks(count, frameStart, frameEnd)
    case Failure(e) => Failure(e)
    case Success(chunks) =>
      ChunksBalanced(count, frameStart, frameEnd);
      Success(Manifest(jobId, frameStart, frameEnd, chunks, count, instanceType,
                       LastSegment(filepath), Lower(fileFormat)))
  }

  /** The file name the manifest is stored under, inside the job's namespace. */
  const ManifestName := "job.manifest"

  /** Every object of a job lives under `"{job_id}/"`, in both buckets. */
  function JobPrefix(jobId: string): string
  {
    jobId + "/"
  }

  /** `"{}/{}".format(job_id, "job.manifest")`. */
  function ManifestKey(jobId: string): string
  {
    JobPrefix(jobId) + ManifestName
  }

  /** `"{}/{}".format(job_id, blend)`. */
  function AssetKey(jobId: string, blend: string): string
  {
    JobPrefix(jobId) + blend
  }

  /**
   * Both upload keys lie in the job's namespace and end in the uploaded
   * file's name; they coincide only for an asset itself called `job.manifest`.
   */
  lemma UploadKeys(jobId: string, blend: string)
    requires '/' !in blend
    ensures HasPrefix(ManifestKey(jobId), JobPrefix(jobId))
    ensures HasPrefix(AssetKey(jobId, blend), JobPrefix(jobId))
    ensures LastSegment(ManifestKey(jobId)) == ManifestName
    ensures LastSegment(AssetKey(jobId, blend)) == blend
    ensures ManifestKey(jobId) == AssetKey(jobId, blend) <==> blend == ManifestName
  {
    assert ManifestKey(jobId)[..|JobPrefix(jobId)|] == JobPrefix(jobId);
    assert AssetKey(jobId, blend)[..|JobPrefix(jobId)|] == JobPrefix(jobId);
    LastSegmentAfterSlash(jobId, ManifestName);
    LastSegmentAfterSlash(jobId, blend);
    if ManifestKey(jobId) == AssetKey(jobId, blend) {
      assert ManifestKey(jobId)[|JobPrefix(jobId)|..] == ManifestName;
      assert AssetKey(jobId, blend)[|JobPrefix(jobId)|..] == blend;
    }
  }

  /** Job ids without '/' give disjoint namespaces: a key belongs to at most one job. */
  lemma NamespacesDisjoint(id1: string, id2: string, key: string)
    requires '/' !in id1 && '/' !in id2
    requires HasPrefix(key, JobPrefix(id1)) && HasPrefix(key, JobPrefix(id2))
    ensures id1 == id2
  {
    assert key[|id1|] == JobPrefix(id1)[|id1|] == '/';
    assert key[|id2|] == JobPrefix(id2)[|id2|] == '/';
    assert forall i :: 0 <= i < |id1| ==> key[i] == JobPrefix(id1)[i] == id1[i] && key[i] != '/';
    assert forall i :: 0 <= i < |id2| ==> key[i] == JobPrefix(id2)[i] == id2[i] && key[i] != '/';
    assert |id1| == |id2|;
    assert id1 == key[..|id1|] == id2;
  }

  /** What the input bucket holds under a key. */
  datatype InputObject = AssetFile(path: string) | ManifestFile(manifest: Manifest)

  /** `upload_file` to the input bucket: the object is stored only if the call did not raise. */
  function Put(store: map<string, InputObject>, key: string, obj: InputObject, succeeded: bool)
    : (r: map<string, InputObject>)
    ensures succeeded ==> key in r && r[key] == obj
    ensures !succeeded ==> r == store
    ensures forall k :: k != key ==> Agree(r, store, k)
  {
    if succeeded then store[key := obj] else store
  }

  /** `a` and `b` hold the same thing (or nothing) under `k`. */
  predicate Agree<V(==)>(a: map<string, V>, b: map<string, V>, k: string)
  {
    (k in a <==> k in b) && (k in a ==> a[k] == b[k])
  }

  /** The two uploads of `submit`, asset first, each attempted whatever became of the other. */
  function SubmitUploads(store: map<string, InputObject>, m: Manifest, filepath: string,
                         assetUploaded: bool, manifestUploaded: bool): (r: map<string, InputObject>)
    ensures r.Keys == store.Keys + (if assetUploaded then {AssetKey(m.jobId, m.key)} else {})
                                 + (if manifestUploaded then {ManifestKey(m.jobId)} else {})
  {
    var afterAsset := Put(store, AssetKey(m.jobId, m.key), AssetFile(filepath), assetUploaded);
    Put(afterAsset, ManifestKey(m.jobId), ManifestFile(m), manifestUploaded)
  }

  /**
   * The uploads are independent: each key holds its file exactly when its own
   * upload succeeded and is otherwise as before; no other key changes. If the
   * asset is itself named `job.manifest`, the manifest upload overwrites it.
   */
  lemma {:induction false} SubmitUploadsIndependent(store: map<string, InputObject>, m: Manifest, filepath: string,
                                  assetUploaded: bool, manifestUploaded: bool)
    requires '/' !in m.key
    ensures var r := SubmitUploads(store, m, filepath, assetUploaded, manifestUploaded);
            && (manifestUploaded ==> ManifestKey(m.jobId) in r && r[ManifestKey(m.jobId)] == ManifestFile(m))
            && (!manifestUploaded && m.key != ManifestName ==> Agree(r, store, ManifestKey(m.jobId)))
            && (assetUploaded && m.key != ManifestName ==>
                  AssetKey(m.jobId, m.key) in r && r[AssetKey(m.jobId, m.key)] == AssetFile(filepath))
            && (!assetUploaded && m.key != ManifestName ==> Agree(r, store, AssetKey(m.jobId, m.key)))
            && (!assetUploaded && !manifestUploaded ==> r == store)
            && (forall k :: k != ManifestKey(m.jobId) && k != AssetKey(m.jobId, m.key) ==> Agree(r, store, k))
  {
    UploadKeys(m.jobId, m.key);
  }
}

/**
 * The add-on's mutable state and its operations: the module-global `job_id`,
 * the scene's frame range and `instance_props`, the two buckets and the
 * local temporary directory, with `submit`, `isRenderComplete`,
 * `CheckRenderComplete.execute`, `run_timer` and `get_final_frames`.
 */
module HiveRender {
  import opened Wrappers
  import opened Strings
  import opened Chunker
  import opened Jobs
  import opened Poller
  import opened Collector

  /** Why `submit` raises. */
  datatype SubmitError =
    | JobDirectoryExists          // `os.mkdir` of the job directory raised
    | Chunking(cause: ChunkError) // `get_chunks` raised

  /** `os.path.join(base, name)` for a relative `name`. */
  function JoinPath(base: string, name: string): string
    requires name == [] || name[0] != '/'
  {
    if base == [] || base[|base| - 1] == '/' then base + name else base + "/" + name
  }

  /** A joined path starts with `base`, ends with `name`, and has one '/' between them, added only when missing. */
  lemma JoinPathParts(base: string, name: string)
    requires name == [] || name[0] != '/'
    ensures var r := JoinPath(base, name);
            && HasPrefix(r, base) && HasSuffix(r, name)
            && |r| == |base| + |name| + (if base == [] || base[|base| - 1] == '/' then 0 else 1)
            && (base != [] ==> r[|r| - |name| - 1] == '/')
  {
    var r := JoinPath(base, name);
    assert r[..|base|] == base;
    assert r[|r| - |name|..] == name;
  }

  /**
   * With `bpy.app.tempdir` ending in '/', as Blender gives it, the
   * `render_out` directory of `get_final_frames` lies inside the job
   * directory `submit` created, beside the manifest.
   */
  lemma OutputInJobDirectory(tempdir: string, jobId: string)
    requires tempdir != [] && tempdir[|tempdir| - 1] == '/'
    requires jobId != [] && '/' !in jobId
    ensures OutputDirectory(tempdir, jobId) == JoinPath(JoinPath(tempdir, jobId), "render_out")
    ensures OutputDirectory(tempdir, jobId) != JoinPath(JoinPath(tempdir, jobId), ManifestName)
  {
    var jobDirectory := JoinPath(tempdir, jobId);
    assert jobDirectory == tempdir + jobId;
    assert jobDirectory[|jobDirectory| - 1] == jobId[|jobId| - 1];
  }

  /** Every manifest in the input bucket sits under its own job's key and partitions its frame range. */
  ghost predicate ManifestsWellPlaced(store: map<string, InputObject>)
  {
    forall k :: k in store && store[k].ManifestFile? ==>
      k == ManifestKey(store[k].manifest.jobId) &&
      ValidPartition(store[k].manifest.chunks, store[k].manifest.startFrame, store[k].manifest.endFrame)
  }

  /** Submitting a job whose manifest partitions its range keeps every manifest well placed. */
  lemma SubmitKeepsManifestsWellPlaced(store: map<string, InputObject>, m: Manifest, filepath: string,
                                       assetUploaded: bool, manifestUploaded: bool)
    requires ManifestsWellPlaced(store)
    requires ValidPartition(m.chunks, m.startFrame, m.endFrame)
    ensures ManifestsWellPlaced(SubmitUploads(store, m, filepath, assetUploaded, manifestUploaded))
  {
    var afterAsset := Put(store, AssetKey(m.jobId, m.key), AssetFile(filepath), assetUploaded);
    assert ManifestsWellPlaced(afterAsset);
  }

  /**
   * The manifest dictionary of `submit`: run `get_chunks`, then fill in the
   * fields; raises when `get_chunks` does.
   */
  method MakeManifest(jobId: string, frameStart: int, frameEnd: int, count: int,
                      instanceType: InstanceType, filepath: string, fileFormat: string)
    returns (r: Result<Manifest, ChunkError>)
    ensures r == BuildManifest(jobId, frameStart, frameEnd, count, instanceType, filepath, fileFormat)
  {
    var blend := LastSegment(filepath);
    var chunks := GetChunks(count, frameStart, frameEnd);
    if chunks.Failure? {
      return Failure(chunks.error);
    }
    return Success(Manifest(jobId, frameStart, frameEnd, chunks.value, count, instanceType, blend, Lower(fileFormat)));
  }

  class Session {
    /** `bpy.app.tempdir`, the saved `.blend` path and the scene's output file format. */
    const tempdir: string
    const filepath: string
    const fileFormat: string

    /** `scene.frame_start` and `scene.frame_end`. */
    var frameStart: int
    var frameEnd: int

    /** The module-global `job_id`. */
    var jobId: string

    /** `instance_props.check_time`, `.render_complete` and `.time`. */
    var checkTime: bool
    var renderComplete: string
    var time: string

    /** Bucket "hive-render-input", by key. */
    var inputStore: map<string, InputObject>
    /** Keys of bucket "hive-render-output", in listing order; remote workers add to it. */
    var outputStore: seq<string>

    /** Directories and files on the local disk. */
    var localDirs: set<string>
    var localFiles: map<string, LocalFile>

    /** How many listings this session has sent to the output bucket (bookkeeping for the proofs). */
    ghost var listRequests: nat

    ghost predicate Valid()
      reads this
    {
      (renderComplete == "" || renderComplete == Rendering || renderComplete == Complete) &&
      ManifestsWellPlaced(inputStore)
    }

    /** The properties the polling functions work on. */
    ghost function PollView(): PollState
      reads this
    {
      PollState(checkTime, renderComplete, listRequests)
    }

    /** What one listing of the job's output prefix reports as `KeyCount`, or `None` if the call raises. */
    function Observe(listingSucceeds: bool): Option<nat>
      reads this
    {
      if listingSucceeds then Some(|ListPrefix(outputStore, JobPrefix(jobId))|) else None
    }

    /**
     * The add-on as registered: no job yet, auto refresh off, empty status.
     * The shared buckets already hold whatever earlier jobs left there.
     */
    constructor (tempdir: string, filepath: string, fileFormat: string,
                 frameStart: int, frameEnd: int, inputStore: map<string, InputObject>, outputStore: seq<string>)
      requires ManifestsWellPlaced(inputStore)
      ensures Valid()
      ensures this.tempdir == tempdir && this.filepath == filepath && this.fileFormat == fileFormat
      ensures this.frameStart == frameStart && this.frameEnd == frameEnd
      ensures this.inputStore == inputStore && this.outputStore == outputStore
      ensures jobId == "" && !checkTime && renderComplete == "" && time == ""
      ensures localDirs == {} && localFiles == map[] && listRequests == 0
    {
      this.tempdir, this.filepath, this.fileFormat := tempdir, filepath, fileFormat;
      this.frameStart, this.frameEnd := frameStart, frameEnd;
      this.inputStore, this.outputStore := inputStore, outputStore;
      jobId, checkTime, renderComplete, time := "", false, "", "";
      localDirs, localFiles, listRequests := {}, map[], 0;
    }

    /**
     * `submit(count, instance_type)`: take the fresh id, create its directory,
     * write the manifest, attempt both uploads independently and start
     * polling. The upload outcomes never change what `submit` reports or the
     * status it sets; only the directory or the chunking can make it raise.
     */
    method Submit(count: InstanceCount, instanceType: InstanceType, freshId: string,
                  assetUploaded: bool, manifestUploaded: bool) returns (r: Outcome<SubmitError>)
      requires Valid()
      requires freshId != [] && '/' !in freshId
      modifies this`jobId, this`localDirs, this`localFiles, this`inputStore, this`renderComplete, this`checkTime
      ensures Valid()
      ensures jobId == freshId
      ensures localDirs == old(localDirs) + {JoinPath(tempdir, freshId)}
      ensures var built := BuildManifest(freshId, frameStart, frameEnd, count, instanceType, filepath, fileFormat);
              && r == (if JoinPath(tempdir, freshId) in old(localDirs) then Fail(JobDirectoryExists)
                       else if built.Failure? then Fail(Chunking(built.error))
                       else Pass)
              && (r.Pass? ==>
                    && localFiles == old(localFiles)[JoinPath(JoinPath(tempdir, freshId), ManifestName) := ManifestJson(built.value)]
                    && inputStore == SubmitUploads(old(inputStore), built.value, filepath, assetUploaded, manifestUploaded)
                    && renderComplete == Rendering && checkTime)
              && (r.Fail? ==>
                    && localFiles == old(localFiles) && inputStore == old(inputStore)
                    && renderComplete == old(renderComplete) && checkTime == old(checkTime))
    {
      var jobDirectory, existed := CreateJobDirectory(freshId);
      if existed {
        return Fail(JobDirectoryExists);
      }
      assert localFiles == old(localFiles) && inputStore == old(inputStore);
      r := ChunkAndPublish(jobDirectory, count, instanceType, assetUploaded, manifestUploaded);
    }

    /**
     * The rest of `submit` once the job directory exists: build the manifest
     * (raising when `get_chunks` does), then publish it.
     */
    method ChunkAndPublish(jobDirectory: string, count: InstanceCount, instanceType: InstanceType,
                           assetUploaded: bool, manifestUploaded: bool) returns (r: Outcome<SubmitError>)
      requires Valid()
      modifies this`localFiles, this`inputStore, this`renderComplete, this`checkTime
      ensures Valid()
      ensures var built := BuildManifest(jobId, frameStart, frameEnd, count, instanceType, filepath, fileFormat);
              && r == (if built.Failure? then Fail(Chunking(built.error)) else Pass)
              && (r.Pass? ==>
                    && localFiles == old(localFiles)[JoinPath(jobDirectory, ManifestName) := ManifestJson(built.value)]
                    && inputStore == SubmitUploads(old(inputStore), built.value, filepath, assetUploaded, manifestUploaded)
                    && renderComplete == Rendering && checkTime)
              && (r.Fail? ==>
                    && localFiles == old(localFiles) && inputStore == old(inputStore)
                    && renderComplete == old(renderComplete) && checkTime == old(checkTime))
    {
      var manifestPath := JoinPath(jobDirectory, ManifestName);
      var built := MakeManifest(jobId, frameStart, frameEnd, count, instanceType, filepath, fileFormat);
      if built.Failure? {
        return Fail(Chunking(built.error));
      }
      Publish(manifestPath, built.value, assetUploaded, manifestUploaded);
      return Pass;
    }

    /**
     * The first lines of `submit`: take the fresh id and `os.mkdir` its
     * directory, which raises when the directory already exists.
     */
    method CreateJobDirectory(freshId: string) returns (jobDirectory: string, existed: bool)
      requires Valid()
      requires freshId != [] && '/' !in freshId
      modifies this`jobId, this`localDirs
      ensures Valid()
      ensures jobId == freshId && jobDirectory == JoinPath(tempdir, freshId)
      ensures existed == (jobDirectory in old(localDirs))
      ensures localDirs == old(localDirs) + {jobDirectory}
    {
      jobId := freshId;
      jobDirectory := JoinPath(tempdir, jobId);
      existed := jobDirectory in localDirs;
      localDirs := localDirs + {jobDirectory};
    }

    /**
     * The second half of `submit`: write the manifest file, attempt both
     * uploads, then show "RENDERING..." and turn auto refresh on.
     */
    method Publish(manifestPath: string, manifest: Manifest, assetUploaded: bool, manifestUploaded: bool)
      requires Valid()
      requires ValidPartition(manifest.chunks, manifest.startFrame, manifest.endFrame)
      modifies this`localFiles, this`inputStore, this`renderComplete, this`checkTime
      ensures Valid()
      ensures localFiles == old(localFiles)[manifestPath := ManifestJson(manifest)]
      ensures inputStore == SubmitUploads(old(inputStore), manifest, filepath, assetUploaded, manifestUploaded)
      ensures renderComplete == Rendering && checkTime
    {
      SubmitKeepsManifestsWellPlaced(inputStore, manifest, filepath, assetUploaded, manifestUploaded);
      localFiles := localFiles[manifestPath := ManifestJson(manifest)];
      inputStore := SubmitUploads(inputStore, manifest, filepath, assetUploaded, manifestUploaded);
      renderComplete := Rendering;
      checkTime := true;
    }

    /**
     * `isRenderComplete()`: list the job's output prefix and compare the key
     * count with the frame count.
     */
    method IsRenderComplete(listingSucceeds: bool) returns (complete: bool)
      requires Valid()
      modifies this`checkTime, this`listRequests
      ensures Valid()
      ensures (complete, PollView())
           == Poll(old(PollView()), old(Observe(listingSucceeds)), ExpectedFrames(frameStart, frameEnd))
    {
      listRequests := listRequests + 1;
      if !listingSucceeds {
        return false;
      }
      var keyCount := |ListPrefix(outputStore, JobPrefix(jobId))|;
      var frameCount := (frameEnd - frameStart) + 1;
      if keyCount == frameCount {
        checkTime := false;
        return true;
      } else {
        return false;
      }
    }

    /** `CheckRenderComplete.execute`: poll and set the status text. */
    method CheckRenderComplete(listingSucceeds: bool)
      requires Valid()
      modifies this`checkTime, this`listRequests, this`renderComplete
      ensures Valid()
      ensures PollView() == Check(old(PollView()), old(Observe(listingSucceeds)), ExpectedFrames(frameStart, frameEnd))
    {
      var complete := IsRenderComplete(listingSucceeds);
      if complete {
        renderComplete := Complete;
      } else {
        renderComplete := Rendering;
      }
    }

    /**
     * `run_timer`: while auto refresh is on, stamp the time and check the
     * render; always ask to be called again after one second.
     */
    method RunTimer(now: string, listingSucceeds: bool) returns (interval: int)
      requires Valid()
      modifies this`checkTime, this`listRequests, this`renderComplete, this`time
      ensures Valid()
      ensures (PollView(), interval)
           == Tick(old(PollView()), old(Observe(listingSucceeds)), ExpectedFrames(frameStart, frameEnd))
      ensures time == if old(checkTime) then now else old(time)
    {
      if checkTime {
        time := now;
        CheckRenderComplete(listingSucceeds);
      }
      return 1;
    }

    /** The "Auto Refresh" checkbox: the user turns polling on or off. */
    method SetAutoRefresh(on: bool)
      requires Valid()
      modifies this`checkTime
      ensures Valid() && checkTime == on
    {
      checkTime := on;
    }

    /** Remote workers, outside this process, have changed the output bucket to `keys`. */
    method RemoteWrites(keys: seq<string>)
      requires Valid()
      modifies this`outputStore
      ensures Valid() && outputStore == keys
    {
      outputStore := keys;
    }

    /**
     * `get_final_frames()`: make sure `render_out` exists, list the job's
     * output prefix and download every listed object to `render_out/<basename>`;
     * the downloads at the positions in `failed` raise and are skipped. A
     * failed or empty listing raises once the directory exists.
     */
    method GetFinalFrames(listingSucceeds: bool, failed: set<nat>) returns (r: Outcome<CollectError>)
      requires Valid()
      modifies this`localDirs, this`localFiles, this`listRequests
      ensures Valid()
      ensures localDirs == old(localDirs) + {OutputDirectory(tempdir, jobId)}
      ensures listRequests == old(listRequests) + 1
      ensures var listing := ListPrefix(outputStore, JobPrefix(jobId));
              && r == (if !listingSucceeds then Fail(ListingFailed)
                       else if listing == [] then Fail(NoContents)
                       else Pass)
              && localFiles == (if r.Pass? then Downloads(old(localFiles), OutputDirectory(tempdir, jobId), listing, failed)
                                else old(localFiles))
    {
      var outputDirectory := OutputDirectory(tempdir, jobId);
      if outputDirectory !in localDirs {
        localDirs := localDirs + {outputDirectory};
      }
      listRequests := listRequests + 1;
      if !listingSucceeds {
        return Fail(ListingFailed);
      }
      var images := ListPrefix(outputStore, JobPrefix(jobId));
      if images == [] {
        return Fail(NoContents);
      }
      DownloadAll(outputDirectory, images, failed);
      return Pass;
    }

    /** The download loop of `get_final_frames`, one listed key after the other. */
    method DownloadAll(outputDirectory: string, images: seq<string>, failed: set<nat>)
      modifies this`localFiles
      ensures localFiles == Downloads(old(localFiles), outputDirectory, images, failed)
    {
      var i := 0;
      while i < |images|
        invariant 0 <= i <= |images|
        invariant localFiles == Downloads(old(localFiles), outputDirectory, images[..i], failed)
      {
        var keyBase := LastSegment(images[i]);
        var outputFile := outputDirectory + "/" + keyBase;
        DownloadsStep(old(localFiles), outputDirectory, images, failed, i);
        if i !in failed {
          localFiles := localFiles[outputFile := Downloaded(images[i])];
        }
        i := i + 1;
      }
      assert images[..|images|] == images;
    }
  }
}

/**
 * Fetching the rendered frames: `get_final_frames` lists the job's output
 * prefix and downloads every listed object into `render_out/`, under the
 * last '/'-segment of its key.
 */
module Collector {
  import opened Wrappers
  import opened Strings
  import opened Jobs

  /** What a local file holds: the manifest `submit` wrote, or the output object downloaded from `key`. */
  datatype LocalFile = ManifestJson(manifest: Manifest) | Downloaded(key: string)

  /** Why `get_final_frames` raises. */
  datatype CollectError =
    | ListingFailed  // the listing raised, leaving `response` unbound
    | NoContents     // an empty listing has no 'Contents' entry

  /** `"{}{}/render_out".format(tempdir, job_id)`. */
  function OutputDirectory(tempdir: string, jobId: string): (r: string)
    ensures HasPrefix(r, tempdir + jobId + "/")
    ensures LastSegment(r) == "render_out"
  {
    assert (tempdir + jobId + "/render_out")[..|tempdir + jobId + "/"|] == tempdir + jobId + "/";
    LastSegmentAfterSlash(tempdir + jobId, "render_out");
    tempdir + jobId + "/" + "render_out"
  }

  /** `"{}{}/render_out/{}".format(tempdir, job_id, key_base)`: where the object under `key` is saved. */
  function FramePath(dir: string, key: string): string
  {
    dir + "/" + LastSegment(key)
  }

  /** A frame is saved inside the output directory, under its key's basename. */
  lemma FramePathInDirectory(dir: string, key: string)
    ensures HasPrefix(FramePath(dir, key), dir + "/")
    ensures LastSegment(FramePath(dir, key)) == LastSegment(key)
  {
    assert FramePath(dir, key)[..|dir + "/"|] == dir + "/";
    LastSegmentAfterSlash(dir, LastSegment(key));
  }

  /**
   * The local files after the download loop has handled `keys` in order;
   * the downloads at the positions in `failed` raised and wrote nothing.
   */
  function Downloads(files: map<string, LocalFile>, dir: string, keys: seq<string>, failed: set<nat>)
    : (r: map<string, LocalFile>)
    ensures files.Keys <= r.Keys
    ensures (forall i :: 0 <= i < |keys| ==> i in failed) ==> r == files
    decreases |keys|
  {
    if keys == [] then files
    else
      var i := |keys| - 1;
      var before := Downloads(files, dir, keys[..i], failed);
      if i in failed then before else before[FramePath(dir, keys[i]) := Downloaded(keys[i])]
  }

  /** One more turn of the download loop, at position `i`. */
  lemma DownloadsStep(files: map<string, LocalFile>, dir: string, keys: seq<string>, failed: set<nat>, i: nat)
    requires i < |keys|
    ensures Downloads(files, dir, keys[..i + 1], failed)
         == if i in failed then Downloads(files, dir, keys[..i], failed)
            else Downloads(files, dir, keys[..i], failed)[dir + "/" + LastSegment(keys[i]) := Downloaded(keys[i])]
  {
    assert keys[..i + 1][..i] == keys[..i];
  }

  /** The last successful download in `keys` that lands on `path`, if any. */
  function LastWriter(dir: string, keys: seq<string>, failed: set<nat>, path: string): (r: Option<nat>)
    ensures r.Some? ==> r.value < |keys| && r.value !in failed && FramePath(dir, keys[r.value]) == path
    ensures r.Some? ==> forall k :: r.value < k < |keys| && k !in failed ==> FramePath(dir, keys[k]) != path
    ensures r.None? ==> forall k :: 0 <= k < |keys| && k !in failed ==> FramePath(dir, keys[k]) != path
    decreases |keys|
  {
    if keys == [] then None
    else
      var i := |keys| - 1;
      if i !in failed && FramePath(dir, keys[i]) == path then Some(i)
      else LastWriter(dir, keys[..i], failed, path)
  }

  /**
   * After the loop, a path holds the object of the LAST successful download
   * that lands on it; a path no successful download lands on is as before.
   */
  lemma {:induction false} DownloadsAt(files: map<string, LocalFile>, dir: string, keys: seq<string>,
                                       failed: set<nat>, path: string)
    ensures var r := Downloads(files, dir, keys, failed);
            match LastWriter(dir, keys, failed, path)
            case Some(j) => path in r && r[path] == Downloaded(keys[j])
            case None => Agree(r, files, path)
    decreases |keys|
  {
    if keys != [] {
      var i := |keys| - 1;
      var init := keys[..i];
      var before := Downloads(files, dir, init, failed);
      var after := Downloads(files, dir, keys, failed);
      DownloadsAt(files, dir, init, failed, path);
      if i !in failed && FramePath(dir, keys[i]) == path {
        assert after == before[path := Downloaded(keys[i])];
        assert LastWriter(dir, keys, failed, path) == Some(i);
      } else {
        assert Agree(after, before, path);
        assert LastWriter(dir, keys, failed, path) == LastWriter(dir, init, failed, path);
        match LastWriter(dir, init, failed, path)
        case Some(j) => assert init[j] == keys[j];
        case None =>
      }
    }
  }

  /** Nothing outside the output directory changes. */
  lemma DownloadsStayInDirectory(files: map<string, LocalFile>, dir: string, keys: seq<string>,
                                 failed: set<nat>, path: string)
    requires !HasPrefix(path, dir + "/")
    ensures Agree(Downloads(files, dir, keys, failed), files, path)
  {
    DownloadsAt(files, dir, keys, failed, path);
    var w := LastWriter(dir, keys, failed, path);
    if w.Some? {
      FramePathInDirectory(dir, keys[w.value]);
    }
  }

  /**
   * Every successful download leaves a file under its key's basename holding
   * an object with that basename; a failed one does not stop the others.
   * When basenames are distinct, each file holds exactly its own object.
   */
  lemma DownloadsEveryKey(files: map<string, LocalFile>, dir: string, keys: seq<string>,
                          failed: set<nat>, j: nat)
    requires j < |keys| && j !in failed
    ensures var r := Downloads(files, dir, keys, failed);
            && FramePath(dir, keys[j]) in r
            && r[FramePath(dir, keys[j])].Downloaded?
            && LastSegment(r[FramePath(dir, keys[j])].key) == LastSegment(keys[j])
    ensures (forall k :: j < k < |keys| ==> LastSegment(keys[k]) != LastSegment(keys[j])) ==>
              Downloads(files, dir, keys, failed)[FramePath(dir, keys[j])] == Downloaded(keys[j])
  {
    var path := FramePath(dir, keys[j]);
    DownloadsAt(files, dir, keys, failed, path);
    var w := LastWriter(dir, keys, failed, path);
    assert w.Some?;
    assert FramePath(dir, keys[w.value]) == path;
    FramePathInDirectory(dir, keys[w.value]);
    FramePathInDirectory(dir, keys[j]);
    if forall k :: j < k < |keys| ==> LastSegment(keys[k]) != LastSegment(keys[j]) {
      assert w.value == j;
    }
  }

  /** Downloading the same listing again, with the same outcomes, changes nothing. */
  lemma DownloadsIdempotent(files: map<string, LocalFile>, dir: string, keys: seq<string>, failed: set<nat>)
    ensures var once := Downloads(files, dir, keys, failed);
            Downloads(once, dir, keys, failed) == once
  {
    var once := Downloads(files, dir, keys, failed);
    var twice := Downloads(once, dir, keys, failed);
    forall path
      ensures (path in twice <==> path in once) && (path in once ==> twice[path] == once[path])
    {
      DownloadsAt(files, dir, keys, failed, path);
      DownloadsAt(once, dir, keys, failed, path);
    }
    assert twice.Keys == once.Keys;
  }
}

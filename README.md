# Hive Render orchestration, modelled in Dafny

Hive Render is a Blender add-on that spreads the frames of an animation over a
small fleet of render workers that communicate only through two S3 buckets.
The add-on does four things:

- It splits the scene's frame range into one chunk per instance (`get_chunks`).
- It writes a job manifest and uploads it, with the `.blend` file, under `"{job_id}/"` in the input bucket (`submit`).
- It polls the output bucket until the number of objects under `"{job_id}/"` equals the number of frames (`isRenderComplete`, `CheckRenderComplete.execute`, `run_timer`).
- It downloads every listed output object into `render_out/` (`get_final_frames`).

This project models that logic without Blender, boto3 or numpy:

| file | module | what it holds |
|---|---|---|
| `wrappers.dfy` | `Wrappers` | `Option`, `Result`, `Outcome` |
| `chunker.dfy` | `Chunker` | `numpy.array_split` on a frame range, `get_chunks` as a loop, the arithmetic definition it equals, and the partition and balance properties |
| `strings.dfy` | `Strings` | `os.path.basename` / `split('/')[-1]`, ASCII `str.lower()`, prefix and suffix tests |
| `jobs.dfy` | `Jobs` | the instance types, the manifest record, the upload keys and the two independent uploads |
| `poller.dfy` | `Poller` | one bucket listing (at most 1,000 keys), the poll, the status check, the timer tick and sequences of ticks |
| `collector.dfy` | `Collector` | the download loop as a function on the local files, and what it leaves under each path |
| `session.dfy` | `HiveRender` | class `Session` holding the global `job_id`, the scene properties, both buckets and the local disk, with one method per operation |

The stateful operations are methods of `Session`. Each one ties its new state
to the pure functions of `Jobs`, `Poller` and `Collector`, and the lemmas
about those functions carry the properties.

The job's state lives where the code keeps it: in the scene properties
`check_time` (auto refresh on or off) and `render_complete` (the status text
"", "RENDERING..." or "COMPLETE!"). There is no separate created / submitted /
rendering / complete enumeration in the code, so there is none in the model.
The session also has a ghost counter of bucket listings. It lets contracts
state when a tick queries the store.

Behaviour of the code that the model keeps as written:

- `get_chunks` raises when `count < 1` (numpy's ValueError). It also raises whenever `count` exceeds the number of frames, including an empty range: some group is then empty and `chunk[0]` raises IndexError (hive-render-ui.py:44-47). `Chunks` returns these as errors.
- `submit` assigns `job_id` and creates the job directory before it calls `get_chunks`. A chunking error therefore leaves the new id and the directory in place, uploads nothing and leaves the status alone.
- Completion needs the listing's `KeyCount` to EQUAL `frame_end - frame_start + 1`, read from the scene at poll time. A `KeyCount` above that number is not completion (`Poller.SurplusIsNotComplete`). But `KeyCount` stops at 1,000, so a job of exactly 1,000 frames completes once 1,000 or more objects lie under its prefix, surplus included (`Poller.CompletesAtCap`).
- One `list_objects_v2` call returns at most 1,000 keys and the code does not paginate. A job of more than 1,000 frames therefore never completes (`Poller.LargeJobNeverCompletes`), and the collector fetches at most 1,000 objects.
- `get_final_frames` creates `render_out` first. It then raises when the listing fails, because `response` is unbound at hive-render-ui.py:154. It also raises when the listing is empty, because S3 omits `Contents` for an empty listing. One might expect an empty listing to give an empty result; the code raises instead, and the model follows the code.
- If the asset file is itself called `job.manifest`, both uploads use the same key and the manifest overwrites the asset (`Jobs.UploadKeys`, `Jobs.SubmitUploadsIndependent`).

## Model

| member | source | states |
|---|---|---|
| `Chunker.Range` | hive-render-ui.py:44 | `range(lo, hi)` has `max(0, hi - lo)` elements and element `i` is `lo + i` |
| `Chunker.ArraySplit` | hive-render-ui.py:44 | `array_split` fails exactly for fewer than one section; otherwise it gives `sections` groups, where group `k` has `n / sections` items plus one more for `k < n % sections` |
| `Chunker.ArraySplitFlatten` | hive-render-ui.py:44 | concatenating the groups of `array_split` gives back the input unchanged |
| `Chunker.Chunks` | hive-render-ui.py:41-49 | the reference definition of `get_chunks`: it fails iff `count < 1` or `count` exceeds the frame count, and otherwise gives `count` chunks starting at `start`, chunk `k` covering `start + Offset(k)` to `start + Offset(k + 1) - 1` with `Offset(k) = k * (n / count) + min(k, n % count)` |
| `Chunker.GetChunks` | hive-render-ui.py:41-49 | the append loop over the split groups returns exactly `Chunks(count, start, end)`, including the two ways it raises |
| `Chunker.ChunksPartition` | hive-render-ui.py:41-49 | chunking succeeds iff `1 <= count <= frames` (`NoSections` below 1, `EmptyChunk` above the frame count); on success there are `count` chunks, the first starts at `start`, the last ends at `end`, each has `first <= last`, and each starts right after the previous one ends |
| `Chunker.ChunksBalanced` | hive-render-ui.py:44-47 | chunk `k` has `n / count + 1` frames for `k < n % count` and `n / count` otherwise, so sizes never increase along the list and differ by at most one |
| `Chunker.PartitionCovers` | hive-render-ui.py:41-49 | a valid partition of `[start, end]` expands to exactly `start, start + 1, ..., end` in order, with no gap and no repeat |
| `Chunker.PartitionOrdered` | hive-render-ui.py:46-47 | in a valid partition every earlier chunk ends strictly before every later chunk starts |
| `Chunker.PartitionLocates` | hive-render-ui.py:41-49 | a frame lies in some chunk iff it lies in `[start, end]`, and then it lies in only one chunk |
| `Chunker.ChunksExample` | hive-render-ui.py:41-49 | `get_chunks(3, 1, 10)` is `[(1,4), (5,7), (8,10)]` |
| `Strings.LastSegment` | hive-render-ui.py:70 | the basename is a suffix of the path, contains no '/', and is either the whole path or is preceded by '/' |
| `Strings.LastSegmentUnique` | hive-render-ui.py:158 | those three properties determine the basename uniquely |
| `Strings.LastSegmentAfterSlash` | hive-render-ui.py:93 | the last segment of `dir + "/" + name` is `name` when `name` has no '/' |
| `Strings.LowerChar` | hive-render-ui.py:84 | lower-casing one character maps `A`..`Z` to `a`..`z`, leaves every other character alone, and never returns an upper-case letter |
| `Strings.Lower` | hive-render-ui.py:84 | `str.lower()` keeps the length, leaves no upper-case letter, and changes only upper-case letters, each to its lower-case form |
| `Jobs.ParseInstanceType` | hive-render-ui.py:25-34 | the `instance_type` enum accepts exactly the six identifiers `xlarge` to `16xlarge`: a parsed item has the given identifier, and an identifier no item has is refused |
| `Jobs.InstanceTypeRoundTrip` | hive-render-ui.py:28-33 | every item reads back from its own identifier, and no two items share one |
| `Jobs.ClampInstanceCount` | hive-render-ui.py:24 | a value assigned to `instance_count` is kept when it lies in 1..6, and is raised to 1 or lowered to 6 otherwise |
| `Jobs.InstanceCountChunks` | hive-render-ui.py:41-49 | every count `instance_count` allows chunks a range of six or more frames into that many chunks, and the default count 1 makes any non-empty range a single chunk `(start, end)` |
| `Jobs.BuildManifest` | hive-render-ui.py:69-85 | a manifest exists iff chunking succeeds, and it then carries the job id, frame bounds, count and type given; its chunks are a balanced partition of `[start, end]` into `count` pieces; `key` is the basename of the asset path (`LastSegment`) and `format` the lower-cased file format (`Lower`) |
| `Jobs.UploadKeys` | hive-render-ui.py:92-93 | both upload keys lie under `"{job_id}/"`, end in `job.manifest` and the asset's basename respectively, and coincide iff the asset is named `job.manifest` |
| `Jobs.NamespacesDisjoint` | hive-render-ui.py:119 | for job ids without '/', a key under two job prefixes means the ids are equal, so jobs never see each other's objects |
| `Jobs.Put` | hive-render-ui.py:96-104 | a successful upload stores the object under its key; a failed one changes nothing; no other key is affected |
| `Jobs.SubmitUploads` | hive-render-ui.py:96-104 | the two uploads of `submit` add exactly the keys whose upload succeeded to the bucket's keys, and remove none |
| `Jobs.SubmitUploadsIndependent` | hive-render-ui.py:96-104 | the manifest key holds the manifest when its upload succeeded, and the asset key holds the asset when its upload succeeded, whatever became of the other upload; a key whose upload failed keeps its old content (for an asset not named `job.manifest`); if neither upload succeeds the bucket is unchanged; no other key changes |
| `Poller.ListPrefix` | hive-render-ui.py:117-120 | a listing returns the first `min(m, 1000)` of the `m` keys under the prefix, in bucket order, so its `KeyCount` is exactly `min(m, 1000)`; every listed key is in the bucket and under the prefix |
| `Poller.ListWholeBucket` | hive-render-ui.py:117-120 | when every key is under the prefix and there are at most 1,000, the listing is the bucket itself, in order |
| `Poller.Poll` | hive-render-ui.py:112-130 | a poll reports completion iff the listing succeeded and its key count equals the expected count; it clears `check_time` only then, counts one listing, and leaves the status text alone |
| `Poller.Check` | hive-render-ui.py:179-186 | after a check the status is "COMPLETE!" iff the poll succeeded and "RENDERING..." otherwise |
| `Poller.Tick` | hive-render-ui.py:167-172 | a timer tick always returns interval 1, changes nothing while `check_time` is off, and performs one check while it is on |
| `Poller.Ticks` | hive-render-ui.py:167-172 | a run of timer ticks lists the bucket at most once per tick, leaves the status as it was or sets it to "RENDERING..." or "COMPLETE!", and never turns `check_time` on |
| `Poller.FirstHit` | hive-render-ui.py:126 | the index of the first listing whose count equals the expected one, or none if no listing does |
| `Poller.TicksIdle` | hive-render-ui.py:167-172 | with `check_time` off, any number of ticks leaves the state, including the count of listings, unchanged |
| `Poller.TicksUntilComplete` | hive-render-ui.py:125-130 | from `check_time` on, ticks list once each up to the first exact count; that tick sets "COMPLETE!" and clears `check_time`, and no later tick lists again; with no exact count, every tick lists and the status stays "RENDERING..." |
| `Poller.FiveFrameScenario` | hive-render-ui.py:167-186 | for frames 1..5, a tick seeing 4 objects keeps rendering; the next tick seeing 5 completes; a third tick lists nothing |
| `Poller.SurplusIsNotComplete` | hive-render-ui.py:126 | a count above the expected one is not completion and leaves `check_time` as it was |
| `Poller.LargeJobNeverCompletes` | hive-render-ui.py:117-126 | a poll never reports completion for a job of more than 1,000 frames |
| `Poller.CompletesAtCap` | hive-render-ui.py:117-126 | for a job of exactly 1,000 frames a poll completes iff at least 1,000 keys lie under the prefix, because `KeyCount` stops at 1,000 |
| `Poller.ExpectedIgnoresChunking` | hive-render-ui.py:73-125 | for any instance count that chunks successfully, the chunks cover exactly `frame_end - frame_start + 1` frames, the count the poll expects |
| `Collector.OutputDirectory` | hive-render-ui.py:136 | the output directory lies under `tempdir + job_id + "/"` and its last segment is `render_out` |
| `Collector.FramePathInDirectory` | hive-render-ui.py:158-159 | each object is saved inside `render_out/`, under a name equal to its key's last segment |
| `Collector.Downloads` | hive-render-ui.py:157-164 | the download loop as a function: it never removes a local file, and when every download fails the local files are unchanged |
| `Collector.LastWriter` | hive-render-ui.py:157-164 | the last successful download that lands on a path: it lands there, and no later successful one does; with none, no successful download lands there |
| `Collector.DownloadsAt` | hive-render-ui.py:157-164 | after the loop a path holds the object of the last successful download landing on it, and otherwise holds what it held before |
| `Collector.DownloadsStayInDirectory` | hive-render-ui.py:157-164 | no file outside `render_out/` changes |
| `Collector.DownloadsEveryKey` | hive-render-ui.py:157-164 | every successful download leaves a file under its basename holding an object with that basename, whatever failed elsewhere; with no later key of the same basename, the file holds exactly that object |
| `Collector.DownloadsIdempotent` | hive-render-ui.py:135-164 | running the download loop again on the same listing with the same outcomes changes nothing |
| `HiveRender.JoinPathParts` | hive-render-ui.py:58 | `os.path.join(base, name)` for a relative `name` (not starting with '/') starts with `base`, ends with `name`, and puts exactly one '/' between them, adding it only when `base` does not already end in one |
| `HiveRender.OutputInJobDirectory` | hive-render-ui.py:136-138 | when `tempdir` ends in '/' and the job id has no '/', `render_out` is `os.path.join(job_directory, "render_out")`, inside the directory `submit` created and distinct from the manifest file |
| `HiveRender.SubmitKeepsManifestsWellPlaced` | hive-render-ui.py:92-104 | after the uploads, every manifest in the input bucket still sits under its own job's manifest key and still partitions its frame range |
| `HiveRender.MakeManifest` | hive-render-ui.py:69-85 | the manifest dictionary, built by running `get_chunks`, is `BuildManifest` of the same inputs |
| `HiveRender.Session.constructor` | hive-render-ui.py:15-38 | at registration there is no job id, auto refresh is off, the status is empty, nothing has been written or listed locally, and the shared buckets hold what they held before, with every stored manifest well placed |
| `HiveRender.Session.Submit` | hive-render-ui.py:52-108 | `job_id` becomes the fresh id and its directory is created. The call raises only if that directory exists or chunking fails, and then changes nothing else. Otherwise the manifest file is written, both uploads are attempted, the status is "RENDERING..." and `check_time` is on, whatever the upload outcomes |
| `HiveRender.Session.CreateJobDirectory` | hive-render-ui.py:56-59 | `job_id` becomes the fresh id, the job directory `os.path.join(tempdir, job_id)` is added to the local directories, and the result reports whether it already existed, which is when `os.mkdir` raises |
| `HiveRender.Session.ChunkAndPublish` | hive-render-ui.py:64-108 | with the job directory in place, `submit` raises exactly when `BuildManifest` fails, and then changes nothing; otherwise it writes the manifest file into the job directory, applies the two uploads and sets "RENDERING..." and `check_time` |
| `HiveRender.Session.Publish` | hive-render-ui.py:88-108 | writes the manifest file, applies the two independent uploads, sets "RENDERING..." and `check_time`, and keeps every stored manifest well placed |
| `HiveRender.Session.IsRenderComplete` | hive-render-ui.py:112-130 | the result and the new `check_time` and listing count are those of `Poll` on the job prefix's listing and the current frame range |
| `HiveRender.Session.CheckRenderComplete` | hive-render-ui.py:179-186 | the new status, `check_time` and listing count are those of `Check` |
| `HiveRender.Session.RunTimer` | hive-render-ui.py:167-172 | the new state and the returned interval are those of `Tick`; the time stamp changes only when a check runs |
| `HiveRender.Session.SetAutoRefresh` | hive-render-ui.py:37 | the checkbox sets `check_time` |
| `HiveRender.Session.GetFinalFrames` | hive-render-ui.py:133-164 | `render_out` exists afterwards (created only if absent) and one listing is sent. The call raises if the listing fails or is empty, and then no file changes. Otherwise the local files are `Downloads` of the listing, with the failed positions skipped |
| `HiveRender.Session.DownloadAll` | hive-render-ui.py:157-164 | the loop over the listed keys leaves exactly `Downloads(old files, render_out, keys, failed)` |

## Left out

- Blender UI glue: the panel, class registration and unregistration, `PrintDebug`, and the `GetFrames` / `SubmitOperator` wrappers are presentation code that only forwards calls. The `GetTime` operator's clock is a parameter `now` of `RunTimer`.
- `shortuuid.uuid()` is the parameter `freshId`. `bpy.ops.wm.save_mainfile()` and every `print` are not modelled.
- `json.dump` with `NumpyEncoder` is not modelled: the manifest is a Dafny record. Its text encoding and a parse-back round trip are not modelled either.
- S3 is abstract. The input bucket is a map from key to object. The output bucket is its sequence of keys in listing order; that the order is lexicographic is not enforced. Upload, listing and download failures are boolean flags or sets of positions.
- `Jobs.SubmitUploads`: the upload flags model the evident intent of the `except ClientError` handlers around the two `upload_file` calls (hive-render-ui.py:96-104), namely that a rejected upload is reported and `submit` carries on. boto3's `upload_file` re-raises an S3 rejection as `S3UploadFailedError`, which is not a `ClientError`; with boto3 as shipped, a rejected asset upload therefore escapes `submit` at line 97, skipping the manifest upload and leaving the status and `check_time` unset. That path is not modelled.
- Only the `ClientError` failures the code catches are modelled. Other exceptions, such as connection errors, propagate uncaught in the source and are not modelled.
- `os.mkdir` failures other than an already existing job directory are not modelled. File contents are abstracted: a downloaded file records the key it came from.
- A listed key that ends in '/' has an empty basename and the code would download onto the directory path itself. The model treats it as an ordinary write to `render_out/`.
- `Strings.Lower`: covers ASCII letters only, because Blender's file-format identifiers are ASCII; Python's full Unicode lower-casing is not modelled.
- `Strings.LastSegment`: models POSIX paths only; the Windows separator '\' of `os.path.basename` is not modelled.
- The remote workers and their concurrent writes are outside the process. `Session.RemoteWrites` replaces the output bucket's contents between calls. Timer callbacks run one at a time; `bpy.app.timers` scheduling is not modelled.
- The user editing the frame range between calls is not modelled as an operation. The poll does read the current `frameStart` and `frameEnd` fields.
- `enable_gpus.py` is not part of this model: it is a one-shot device setup and render call with no state of its own.

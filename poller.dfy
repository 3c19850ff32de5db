/**
 * Completion polling: `isRenderComplete`, `CheckRenderComplete.execute` and
 * `run_timer`, over the scene properties `check_time` and `render_complete`.
 */
module Poller {
  import opened Wrappers
  import opened Strings
  import opened Chunker
  import opened Jobs

  /** `list_objects_v2` returns at most this many keys per call (its default `MaxKeys`). */
  const MaxKeys: nat := 1000

  /** The keys of `keys` that begin with `prefix`, in listing order. */
  function Matching(keys: seq<string>, prefix: string): (r: seq<string>)
    ensures |r| <= |keys|
    ensures forall k :: k in r <==> k in keys && HasPrefix(k, prefix)
  {
    if keys == [] then []
    else (if HasPrefix(keys[0], prefix) then [keys[0]] else []) + Matching(keys[1..], prefix)
  }

  /**
   * One `list_objects_v2(Bucket, Prefix)` call over a bucket whose keys, in
   * listing order, are `keys`: the first `MaxKeys` keys under the prefix.
   */
  function ListPrefix(keys: seq<string>, prefix: string): (r: seq<string>)
    ensures |r| == if |Matching(keys, prefix)| <= MaxKeys then |Matching(keys, prefix)| else MaxKeys
    ensures r == Matching(keys, prefix)[..|r|]
    ensures |r| <= MaxKeys
    ensures forall k :: k in r ==> k in keys && HasPrefix(k, prefix)
    ensures |Matching(keys, prefix)| <= MaxKeys ==> forall k :: k in keys && HasPrefix(k, prefix) ==> k in r
    ensures |Matching(keys, prefix)| > 0 ==> |r| > 0
  {
    var m := Matching(keys, prefix);
    if |m| <= MaxKeys then m else m[..MaxKeys]
  }

  /** When every key lies under the prefix and there are at most `MaxKeys`, one listing returns them all, in order. */
  lemma {:induction false} ListWholeBucket(keys: seq<string>, prefix: string)
    requires |keys| <= MaxKeys
    requires forall k :: k in keys ==> HasPrefix(k, prefix)
    ensures ListPrefix(keys, prefix) == keys
  {
    MatchingAll(keys, prefix);
  }

  lemma {:induction false} MatchingAll(keys: seq<string>, prefix: string)
    requires forall k :: k in keys ==> HasPrefix(k, prefix)
    ensures Matching(keys, prefix) == keys
  {
    if keys != [] {
      assert keys[0] in keys;
      assert forall k :: k in keys[1..] ==> k in keys;
      MatchingAll(keys[1..], prefix);
      assert keys == [keys[0]] + keys[1..];
    }
  }

  /** `(scene.frame_end - scene.frame_start) + 1`: the number of objects a finished job leaves. */
  function ExpectedFrames(frameStart: int, frameEnd: int): int
  {
    frameEnd - frameStart + 1
  }

  /** Values `render_complete` takes. */
  const Rendering := "RENDERING..."
  const Complete := "COMPLETE!"

  /** The scene properties polling reads and writes, and how many listings it has issued. */
  datatype PollState = PollState(checkTime: bool, status: string, listRequests: nat)

  /**
   * `isRenderComplete`: `observed` is the `KeyCount` of the listing, or
   * `None` when the listing raised. Complete exactly when the count EQUALS
   * the expected one; only then is `check_time` cleared.
   */
  function Poll(s: PollState, observed: Option<nat>, expected: int): (r: (bool, PollState))
    ensures r.0 <==> observed == Some(expected)
    ensures r.1.listRequests == s.listRequests + 1
    ensures r.1.checkTime == (s.checkTime && !r.0)
    ensures r.1.status == s.status
  {
    var queried := s.(listRequests := s.listRequests + 1);
    match observed
    case None => (false, queried)
    case Some(keyCount) =>
      if keyCount == expected then (true, queried.(checkTime := false)) else (false, queried)
  }

  /** `CheckRenderComplete.execute`: poll, then show the outcome. */
  function Check(s: PollState, observed: Option<nat>, expected: int): (r: PollState)
    ensures r.status == (if observed == Some(expected) then Complete else Rendering)
    ensures r.checkTime == (s.checkTime && observed != Some(expected))
    ensures r.listRequests == s.listRequests + 1
  {
    var (done, polled) := Poll(s, observed, expected);
    polled.(status := if done then Complete else Rendering)
  }

  /** `run_timer`: check only while `check_time` is set; always ask to run again in 1 second. */
  function Tick(s: PollState, observed: Option<nat>, expected: int): (r: (PollState, int))
    ensures r.1 == 1
    ensures !s.checkTime ==> r.0 == s
    ensures s.checkTime ==> r.0 == Check(s, observed, expected)
  {
    (if s.checkTime then Check(s, observed, expected) else s, 1)
  }

  /** Successive timer ticks; tick `i` would see `observations[i]` if it listed the bucket. */
  function Ticks(s: PollState, observations: seq<Option<nat>>, expected: int): (r: PollState)
    ensures s.listRequests <= r.listRequests <= s.listRequests + |observations|
    ensures r.status == s.status || r.status == Rendering || r.status == Complete
    ensures r.checkTime ==> s.checkTime
    decreases |observations|
  {
    if observations == [] then s
    else Ticks(Tick(s, observations[0], expected).0, observations[1..], expected)
  }

  /** The first tick whose listing shows exactly the expected count. */
  function FirstHit(observations: seq<Option<nat>>, expected: int): (r: Option<nat>)
    ensures r.Some? ==> r.value < |observations| && observations[r.value] == Some(expected)
    ensures r.Some? ==> forall i :: 0 <= i < r.value ==> observations[i] != Some(expected)
    ensures r.None? ==> forall i :: 0 <= i < |observations| ==> observations[i] != Some(expected)
  {
    if observations == [] then None
    else if observations[0] == Some(expected) then Some(0)
    else match FirstHit(observations[1..], expected)
      case None => None
      case Some(k) => Some(k + 1)
  }

  /** With `check_time` off, ticks touch nothing and query nothing. */
  lemma {:induction false} TicksIdle(s: PollState, observations: seq<Option<nat>>, expected: int)
    requires !s.checkTime
    ensures Ticks(s, observations, expected) == s
    decreases |observations|
  {
    if observations != [] {
      TicksIdle(s, observations[1..], expected);
    }
  }

  /**
   * From `check_time` on, ticks list the bucket once each until the first
   * exact count; that tick shows "COMPLETE!" and clears `check_time`, and no
   * later tick lists the bucket again. Without such a tick, polling goes on.
   */
  lemma {:induction false} TicksUntilComplete(s: PollState, observations: seq<Option<nat>>, expected: int)
    requires s.checkTime
    ensures var t := Ticks(s, observations, expected);
            match FirstHit(observations, expected)
            case Some(k) =>
              !t.checkTime && t.status == Complete && t.listRequests == s.listRequests + k + 1
            case None =>
              t.checkTime && t.listRequests == s.listRequests + |observations| &&
              (observations != [] ==> t.status == Rendering) && (observations == [] ==> t == s)
    decreases |observations|
  {
    if observations != [] {
      var next := Tick(s, observations[0], expected).0;
      if observations[0] == Some(expected) {
        TicksIdle(next, observations[1..], expected);
      } else {
        TicksUntilComplete(next, observations[1..], expected);
        assert FirstHit(observations, expected) ==
          (match FirstHit(observations[1..], expected) case None => None case Some(k) => Some(k + 1));
      }
    }
  }

  /**
   * Frames 1..5 with auto refresh on: a tick that sees 4 objects keeps
   * rendering, the next one that sees 5 completes, and a third tick lists nothing.
   */
  lemma FiveFrameScenario(s: PollState)
    requires s.checkTime
    ensures var t := Ticks(s, [Some(4), Some(5), Some(5)], ExpectedFrames(1, 5));
            !t.checkTime && t.status == Complete && t.listRequests == s.listRequests + 2
    ensures var t := Ticks(s, [Some(4)], ExpectedFrames(1, 5));
            t.checkTime && t.status == Rendering && t.listRequests == s.listRequests + 1
  {
    var obs := [Some(4), Some(5), Some(5)];
    assert FirstHit(obs[1..], 5) == Some(0);
    assert FirstHit(obs, 5) == Some(1);
    TicksUntilComplete(s, obs, 5);
    assert FirstHit([Some(4)], 5) == None;
    TicksUntilComplete(s, [Some(4)], 5);
  }

  /** A count above the expected one is not completion: the match is exact. */
  lemma SurplusIsNotComplete(s: PollState, keyCount: nat, expected: int)
    requires keyCount > expected
    ensures !Poll(s, Some(keyCount), expected).0
    ensures Poll(s, Some(keyCount), expected).1.checkTime == s.checkTime
  {
  }

  /**
   * A job of more than `MaxKeys` frames never completes: a single listing
   * reports at most `MaxKeys` keys.
   */
  lemma LargeJobNeverCompletes(s: PollState, keys: seq<string>, jobId: string, frameStart: int, frameEnd: int)
    requires ExpectedFrames(frameStart, frameEnd) > MaxKeys
    ensures !Poll(s, Some(|ListPrefix(keys, JobPrefix(jobId))|), ExpectedFrames(frameStart, frameEnd)).0
  {
  }

  /**
   * `KeyCount` stops at `MaxKeys`, so a job of exactly `MaxKeys` frames
   * completes exactly when at least that many objects lie under its prefix:
   * surplus objects beyond the cap go unseen.
   */
  lemma CompletesAtCap(s: PollState, keys: seq<string>, prefix: string, frameStart: int, frameEnd: int)
    requires ExpectedFrames(frameStart, frameEnd) == MaxKeys
    ensures Poll(s, Some(|ListPrefix(keys, prefix)|), ExpectedFrames(frameStart, frameEnd)).0
        <==> |Matching(keys, prefix)| >= MaxKeys
  {
  }

  /** The expected count is the number of frames the chunks cover, whatever the instance count. */
  lemma ExpectedIgnoresChunking(count: int, frameStart: int, frameEnd: int)
    requires Chunks(count, frameStart, frameEnd).Success?
    ensures |Expand(Chunks(count, frameStart, frameEnd).value)| == ExpectedFrames(frameStart, frameEnd)
  {
    ChunksPartition(count, frameStart, frameEnd);
    PartitionCovers(Chunks(count, frameStart, frameEnd).value, frameStart, frameEnd);
  }
}

/** Conversion to the target encoding and the chunk plan of `AudioProcessor`
    (audio_transcriber/audio_processor.py): whether a file is split, into how
    many chunks, which time range each chunk covers, and where it is written.
    Every subprocess is the parameter `run` (argument vector in, exit status
    and captured output back); `str(float)` and `float(text)` are the
    parameters `formatSeconds` and `parseFloat`. */
module AudioProcessor {
  import opened Results
  import opened Text
  import opened Paths

  /** One binary megabyte, 1024 * 1024 bytes. */
  const BytesPerMb: real := 1048576.0

  /** `split_audio`'s default budget, in megabytes. */
  const DefaultMaxSizeMb: int := 10

  /** ffmpeg options for the target encoding: 16-bit little-endian PCM, one
      channel, 16000 Hz, overwrite the output. */
  const TargetEncoding: seq<string> := ["-acodec", "pcm_s16le", "-ac", "1", "-ar", "16000", "-y"]

  // ---------------------------------------------------------------------------
  // _convert_to_wav

  /** The argument vector `_convert_to_wav` hands to ffmpeg. */
  function ConvertCommand(inputPath: string, outputPath: string): (argv: seq<string>)
    ensures |argv| == 11
    ensures argv[0] == "ffmpeg" && argv[1] == "-i" && argv[2] == inputPath
    ensures argv[3..10] == TargetEncoding
    ensures argv[|argv| - 1] == outputPath
  {
    ["ffmpeg", "-i", inputPath] + TargetEncoding + [outputPath]
  }

  /** The exception `_convert_to_wav` raises: its message is ffmpeg's stderr. */
  datatype ConversionError = ConversionError(message: string)

  /** `_convert_to_wav`: succeeds exactly when ffmpeg exits with status 0;
      otherwise the error carries ffmpeg's diagnostic output unchanged. */
  function ConvertToWav(inputPath: string, outputPath: string, run: seq<string> -> CommandResult): (r: Result<(), ConversionError>)
    ensures r.Ok? <==> run(ConvertCommand(inputPath, outputPath)).returnCode == 0
    ensures r.Err? ==> r.error.message == run(ConvertCommand(inputPath, outputPath)).stderr
  {
    var result := run(ConvertCommand(inputPath, outputPath));
    if result.Succeeded() then Ok(()) else Err(ConversionError(result.stderr))
  }

  // ---------------------------------------------------------------------------
  // split_audio: arithmetic

  /** `os.path.getsize(path) / (1024 * 1024)`. */
  function SizeInMb(sizeBytes: nat): real {
    sizeBytes as real / BytesPerMb
  }

  /** Python's `int(x)` on a float: truncation toward zero. */
  function TruncateToInt(x: real): (n: int)
    ensures x >= 0.0 ==> n as real <= x < n as real + 1.0
    ensures x < 0.0 ==> n as real - 1.0 < x <= n as real
  {
    if x >= 0.0 then x.Floor else 0 - (0.0 - x).Floor
  }

  /** `int((file_size / max_size_mb) + 0.5)`. */
  function NumChunks(sizeMb: real, maxSizeMb: int): int
    requires maxSizeMb != 0
  {
    TruncateToInt(sizeMb / maxSizeMb as real + 0.5)
  }

  /** Over a positive budget the chunk count is the size ratio rounded to the
      nearest integer, halves rounding up; an oversized file gets at least one
      chunk. */
  lemma NumChunksRoundsHalfUp(sizeMb: real, maxSizeMb: int)
    requires maxSizeMb > 0 && sizeMb > maxSizeMb as real
    ensures var n := NumChunks(sizeMb, maxSizeMb);
            var ratio := sizeMb / maxSizeMb as real;
            n >= 1 && n as real - 0.5 <= ratio < n as real + 0.5
  {
    var ratio := sizeMb / maxSizeMb as real;
    assert ratio > 1.0;
  }

  function Min(a: real, b: real): real {
    if a <= b then a else b
  }

  /** The time range `[start_time, end_time]` of one chunk, in seconds. */
  datatype ChunkRange = ChunkRange(start: real, end: real) {
    function Length(): real { end - start }
  }

  /** Chunk `i` (0-based) of `count` equal-duration chunks:
      `[i * d, min((i + 1) * d, duration)]` with `d = duration / count`. */
  function ChunkAt(duration: real, count: nat, i: nat): ChunkRange
    requires count >= 1
  {
    var d := duration / count as real;
    ChunkRange(i as real * d, Min((i + 1) as real * d, duration))
  }

  /** The time ranges `split_audio` cuts, in chunk order. */
  function Plan(duration: real, count: nat): (plan: seq<ChunkRange>)
    requires count >= 1
    ensures |plan| == count
    ensures forall i :: 0 <= i < count ==> plan[i] == ChunkAt(duration, count, i)
  {
    seq(count, i requires 0 <= i < count => ChunkAt(duration, count, i))
  }

  function SumLengths(plan: seq<ChunkRange>): real
    decreases |plan|
  {
    if |plan| == 0 then 0.0 else SumLengths(plan[..|plan| - 1]) + plan[|plan| - 1].Length()
  }

  lemma MulMonotone(a: real, b: real, d: real)
    requires a <= b && d >= 0.0
    ensures a * d <= b * d
  {
    assert (b - a) * d >= 0.0;
  }

  /** Below the last chunk the `min` never bites: chunk `i` ends at `(i + 1) * d`,
      and the last one ends exactly at `duration`. */
  lemma ChunkEnds(duration: real, count: nat, i: nat)
    requires duration >= 0.0 && count >= 1 && i < count
    ensures var d := duration / count as real;
            ChunkAt(duration, count, i).end == (i + 1) as real * d
    ensures i == count - 1 ==> ChunkAt(duration, count, i).end == duration
  {
    var d := duration / count as real;
    assert count as real * d == duration;
    MulMonotone((i + 1) as real, count as real, d);
  }

  /** Lengths of the first `k` chunks add up to where chunk `k - 1` ends. */
  lemma PrefixLengths(duration: real, count: nat, k: nat)
    requires duration >= 0.0 && count >= 1 && k <= count
    ensures SumLengths(Plan(duration, count)[..k]) == k as real * (duration / count as real)
  {
    var plan := Plan(duration, count);
    var d := duration / count as real;
    forall i | 0 <= i < k ensures plan[i] == ChunkRange(i as real * d, (i + 1) as real * d) {
      ChunkEnds(duration, count, i);
    }
    SumOfSteps(plan, d, k);
  }

  /** Ranges `[i * d, (i + 1) * d]` laid end to end cover `k * d`. */
  lemma {:induction false} SumOfSteps(plan: seq<ChunkRange>, d: real, k: nat)
    requires k <= |plan|
    requires forall i :: 0 <= i < k ==> plan[i] == ChunkRange(i as real * d, (i + 1) as real * d)
    ensures SumLengths(plan[..k]) == k as real * d
    decreases k
  {
    if k > 0 {
      SumOfSteps(plan, d, k - 1);
      assert plan[..k][..k - 1] == plan[..k - 1];
      assert plan[..k][k - 1] == plan[k - 1];
      assert SumLengths(plan[..k]) == SumLengths(plan[..k - 1]) + plan[k - 1].Length();
      assert k as real * d == (k - 1) as real * d + d;
    }
  }

  /** The chunk ranges partition `[0, duration]`: the first starts at 0, each
      ends where the next starts, none reaches past `duration`, the last ends
      exactly there, and the lengths add up to the whole duration. */
  lemma PlanPartitionsDuration(duration: real, count: nat)
    requires duration >= 0.0 && count >= 1
    ensures var plan := Plan(duration, count);
            && plan[0].start == 0.0
            && (forall i :: 0 <= i < count - 1 ==> plan[i].end == plan[i + 1].start)
            && (forall i :: 0 <= i < count ==> plan[i].start <= plan[i].end <= duration)
            && plan[count - 1].end == duration
            && SumLengths(plan) == duration
  {
    var plan := Plan(duration, count);
    var d := duration / count as real;
    assert d >= 0.0;
    forall i | 0 <= i < count
      ensures plan[i].start <= plan[i].end <= duration
      ensures i < count - 1 ==> plan[i].end == plan[i + 1].start
    {
      ChunkEnds(duration, count, i);
      ChunkEnds(duration, count, count - 1);
      MulMonotone(i as real, (i + 1) as real, d);
      MulMonotone((i + 1) as real, count as real, d);
    }
    ChunkEnds(duration, count, count - 1);
    PrefixLengths(duration, count, count);
    assert plan[..count] == plan;
  }

  /** Chunks are cut by duration, not by bytes, and the count is rounded to
      the nearest integer: a 14 MB file over a 10 MB budget becomes a single
      chunk covering the whole recording, so it is not cut below the budget. */
  lemma ChunkMayExceedBudget(duration: real)
    requires duration > 0.0
    ensures NumChunks(14.0, 10) == 1
    ensures Plan(duration, 1) == [ChunkRange(0.0, duration)]
  {
    assert 14.0 / 10.0 + 0.5 == 1.9;
  }

  // ---------------------------------------------------------------------------
  // split_audio: the external calls

  /** The ffprobe invocation that reads the recording's duration. */
  function ProbeCommand(audioPath: string): (argv: seq<string>)
    ensures |argv| == 9 && argv[0] == "ffprobe" && argv[2] == audioPath
    ensures argv[..2] == ["ffprobe", "-i"]
    ensures argv[3..] == ["-show_entries", "format=duration", "-v", "quiet", "-of", "csv=p=0"]
  {
    ["ffprobe", "-i", audioPath, "-show_entries", "format=duration", "-v", "quiet", "-of", "csv=p=0"]
  }

  /** Where chunk `index` (1-based) is written: `output_dir/chunk_<index>.wav`. */
  function ChunkPath(outputDir: string, index: nat): string {
    PathJoin(outputDir, "chunk_" + NatToString(index) + ".wav")
  }

  /** The ffmpeg invocation that cuts one chunk: seek to the start, keep the
      chunk's length, re-encode to the target encoding. */
  function ChunkCommand(audioPath: string, range: ChunkRange, chunkPath: string, formatSeconds: real -> string): (argv: seq<string>)
    ensures |argv| == 15
    ensures argv[..7] == ["ffmpeg", "-i", audioPath, "-ss", formatSeconds(range.start), "-t", formatSeconds(range.end - range.start)]
    ensures argv[7..14] == TargetEncoding && argv[14] == chunkPath
  {
    ["ffmpeg", "-i", audioPath, "-ss", formatSeconds(range.start), "-t", formatSeconds(range.end - range.start)]
      + TargetEncoding + [chunkPath]
  }

  /** Conversion and chunk extraction both produce the target encoding and
      name the output file last. */
  lemma SameTargetEncoding(inputPath: string, outputPath: string, audioPath: string, range: ChunkRange,
                           chunkPath: string, formatSeconds: real -> string)
    ensures var convert := ConvertCommand(inputPath, outputPath);
            var cut := ChunkCommand(audioPath, range, chunkPath, formatSeconds);
            && convert[|convert| - 8..|convert| - 1] == cut[|cut| - 8..|cut| - 1] == TargetEncoding
            && convert[|convert| - 1] == outputPath && cut[|cut| - 1] == chunkPath
            && convert[2] == inputPath && cut[2] == audioPath
  {
    var cut := ChunkCommand(audioPath, range, chunkPath, formatSeconds);
    assert |cut| == 15;
    assert cut[7..14] == TargetEncoding;
  }

  datatype SplitError =
    | ProbeFailed(stderr: string)       // ffprobe exited non-zero
    | InvalidDuration(text: string)     // float() rejected ffprobe's output
    | DivisionByZero                    // a zero budget, or a chunk count that truncated to 0
    | ChunkFailed(index: nat, stderr: string)  // ffmpeg failed on chunk `index` (1-based)

  /** What ffmpeg reports when it cuts chunk `k` (0-based) of the plan. */
  function ChunkOutcome(audioPath: string, outputDir: string, plan: seq<ChunkRange>, k: nat,
                        run: seq<string> -> CommandResult, formatSeconds: real -> string): CommandResult
    requires k < |plan|
  {
    run(ChunkCommand(audioPath, plan[k], ChunkPath(outputDir, k + 1), formatSeconds))
  }

  /** Chunk `k` (0-based) of the plan is cut successfully. */
  predicate ChunkSucceeds(audioPath: string, outputDir: string, plan: seq<ChunkRange>, k: nat,
                          run: seq<string> -> CommandResult, formatSeconds: real -> string)
    requires k < |plan|
  {
    ChunkOutcome(audioPath, outputDir, plan, k, run, formatSeconds).Succeeded()
  }

  /** Chunk `j` is the first one from chunk `k` on that ffmpeg fails to cut. */
  predicate FirstFailure(audioPath: string, outputDir: string, plan: seq<ChunkRange>, k: nat, j: nat,
                         run: seq<string> -> CommandResult, formatSeconds: real -> string)
  {
    && k <= j < |plan|
    && !ChunkSucceeds(audioPath, outputDir, plan, j, run, formatSeconds)
    && forall i :: k <= i < j ==> ChunkSucceeds(audioPath, outputDir, plan, i, run, formatSeconds)
  }

  /** The extraction loop of `split_audio` from chunk `k` on: the first
      failing ffmpeg call aborts everything with that chunk's number and
      stderr; if none fails, the chunk paths come back in order. */
  function ExtractChunks(audioPath: string, outputDir: string, plan: seq<ChunkRange>, k: nat,
                         run: seq<string> -> CommandResult, formatSeconds: real -> string): (r: Result<seq<string>, SplitError>)
    requires k <= |plan|
    ensures r.Ok? <==> forall j :: k <= j < |plan| ==> ChunkSucceeds(audioPath, outputDir, plan, j, run, formatSeconds)
    ensures r.Ok? ==> |r.value| == |plan| - k && forall i :: 0 <= i < |r.value| ==> r.value[i] == ChunkPath(outputDir, k + i + 1)
    ensures r.Err? ==> exists j: nat :: FirstFailure(audioPath, outputDir, plan, k, j, run, formatSeconds)
                                   && r.error == ChunkFailed(j + 1, ChunkOutcome(audioPath, outputDir, plan, j, run, formatSeconds).stderr)
    decreases |plan| - k
  {
    if k == |plan| then Ok([])
    else
      var result := ChunkOutcome(audioPath, outputDir, plan, k, run, formatSeconds);
      if !result.Succeeded() then
        assert FirstFailure(audioPath, outputDir, plan, k, k, run, formatSeconds);
        Err(ChunkFailed(k + 1, result.stderr))
      else
        var rest := ExtractChunks(audioPath, outputDir, plan, k + 1, run, formatSeconds);
        if rest.Err? then
          assert exists j: nat :: FirstFailure(audioPath, outputDir, plan, k, j, run, formatSeconds)
                             && rest.error == ChunkFailed(j + 1, ChunkOutcome(audioPath, outputDir, plan, j, run, formatSeconds).stderr) by {
            var j: nat :| FirstFailure(audioPath, outputDir, plan, k + 1, j, run, formatSeconds)
                     && rest.error == ChunkFailed(j + 1, ChunkOutcome(audioPath, outputDir, plan, j, run, formatSeconds).stderr);
            forall i | k <= i < j ensures ChunkSucceeds(audioPath, outputDir, plan, i, run, formatSeconds) {
              if i == k {
                assert ChunkOutcome(audioPath, outputDir, plan, i, run, formatSeconds) == result;
              }
            }
          }
          Err(rest.error)
        else
          var paths := [ChunkPath(outputDir, k + 1)] + rest.value;
          assert forall i :: 0 <= i < |paths| ==> paths[i] == ChunkPath(outputDir, k + i + 1) by {
            forall i | 0 <= i < |paths| ensures paths[i] == ChunkPath(outputDir, k + i + 1) {
              if i > 0 {
                assert paths[i] == rest.value[i - 1];
                assert k + 1 + (i - 1) + 1 == k + i + 1;
              }
            }
          }
          Ok(paths)
  }

  /** `split_audio(audio_path, max_size_mb)`. `sizeBytes` is what
      `os.path.getsize` reports. */
  function SplitAudio(audioPath: string, sizeBytes: nat, maxSizeMb: int, outputDir: string,
                      run: seq<string> -> CommandResult, parseFloat: string -> Option<real>,
                      formatSeconds: real -> string): (r: Result<seq<string>, SplitError>)
    // within budget: the input itself, and no external call at all
    ensures SizeInMb(sizeBytes) <= maxSizeMb as real ==> r == Ok([audioPath])
    // over budget, the duration probe comes first and its failure aborts
    ensures SizeInMb(sizeBytes) > maxSizeMb as real && !run(ProbeCommand(audioPath)).Succeeded() ==>
              r == Err(ProbeFailed(run(ProbeCommand(audioPath)).stderr))
    // a duration that does not parse aborts next
    ensures SizeInMb(sizeBytes) > maxSizeMb as real && run(ProbeCommand(audioPath)).Succeeded()
            && parseFloat(Strip(run(ProbeCommand(audioPath)).stdout)).None? ==>
              r == Err(InvalidDuration(Strip(run(ProbeCommand(audioPath)).stdout)))
    // a zero budget divides by zero once the duration is known
    ensures maxSizeMb == 0 && sizeBytes > 0 && run(ProbeCommand(audioPath)).Succeeded()
            && parseFloat(Strip(run(ProbeCommand(audioPath)).stdout)).Some? ==>
              r == Err(DivisionByZero)
    // otherwise the outcome of cutting the planned chunks; over a positive
    // budget there is at least one of them, by NumChunksRoundsHalfUp
    ensures maxSizeMb != 0 && SizeInMb(sizeBytes) > maxSizeMb as real && run(ProbeCommand(audioPath)).Succeeded()
            && parseFloat(Strip(run(ProbeCommand(audioPath)).stdout)).Some? ==>
              r == CutChunks(audioPath, outputDir, parseFloat(Strip(run(ProbeCommand(audioPath)).stdout)).value,
                             NumChunks(SizeInMb(sizeBytes), maxSizeMb), run, formatSeconds)
  {
    var sizeMb := SizeInMb(sizeBytes);
    if sizeMb <= maxSizeMb as real then Ok([audioPath])
    else
      var probe := run(ProbeCommand(audioPath));
      if !probe.Succeeded() then Err(ProbeFailed(probe.stderr))
      else
        var parsed := parseFloat(Strip(probe.stdout));
        if parsed.None? then Err(InvalidDuration(Strip(probe.stdout)))
        else if maxSizeMb == 0 then Err(DivisionByZero)
        else CutChunks(audioPath, outputDir, parsed.value, NumChunks(sizeMb, maxSizeMb), run, formatSeconds)
  }

  /** The second half of `split_audio`, once the duration and the chunk
      count `n` are known: `duration / n` fails for a count of 0, a negative
      count cuts nothing, and otherwise chunk `k` is `chunk_<k+1>.wav`, all
      of them or the first failure. */
  function CutChunks(audioPath: string, outputDir: string, duration: real, n: int,
                     run: seq<string> -> CommandResult, formatSeconds: real -> string): (r: Result<seq<string>, SplitError>)
    ensures n == 0 ==> r == Err(DivisionByZero)
    ensures n < 0 ==> r == Ok([])
    ensures n >= 1 ==>
              && (r.Ok? <==> forall k :: 0 <= k < n ==>
                    ChunkSucceeds(audioPath, outputDir, Plan(duration, n), k, run, formatSeconds))
              && (r.Ok? ==> |r.value| == n && forall k :: 0 <= k < n ==> r.value[k] == ChunkPath(outputDir, k + 1))
              && (r.Err? ==> r.error.ChunkFailed?)
  {
    if n == 0 then Err(DivisionByZero)
    else if n < 0 then Ok([])  // range() of a negative count is empty
    else
      ExtractFromStart(audioPath, outputDir, Plan(duration, n), run, formatSeconds);
      ExtractChunks(audioPath, outputDir, Plan(duration, n), 0, run, formatSeconds)
  }

  /** The whole extraction loop, from the first chunk. */
  lemma ExtractFromStart(audioPath: string, outputDir: string, plan: seq<ChunkRange>,
                         run: seq<string> -> CommandResult, formatSeconds: real -> string)
    ensures var r := ExtractChunks(audioPath, outputDir, plan, 0, run, formatSeconds);
            && (r.Ok? <==> forall k :: 0 <= k < |plan| ==> ChunkSucceeds(audioPath, outputDir, plan, k, run, formatSeconds))
            && (r.Ok? ==> |r.value| == |plan| && forall k :: 0 <= k < |plan| ==> r.value[k] == ChunkPath(outputDir, k + 1))
            && (r.Err? ==> r.error.ChunkFailed?)
  {
    var r := ExtractChunks(audioPath, outputDir, plan, 0, run, formatSeconds);
    if r.Ok? {
      assert forall k :: 0 <= k < |plan| ==> r.value[k] == ChunkPath(outputDir, 0 + k + 1);
    }
  }

  /** With the default 10 MB budget a 5 MB file is returned as it is. */
  lemma SmallFileIsNotSplit(audioPath: string, outputDir: string, run: seq<string> -> CommandResult,
                            parseFloat: string -> Option<real>, formatSeconds: real -> string)
    ensures SplitAudio(audioPath, 5 * 1024 * 1024, DefaultMaxSizeMb, outputDir, run, parseFloat, formatSeconds)
            == Ok([audioPath])
  {
    assert SizeInMb(5 * 1024 * 1024) == 5.0;
  }
}

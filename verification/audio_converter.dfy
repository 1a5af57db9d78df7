/** The path decisions of `AudioConverter` (audio_transcriber/audio_converter.py):
    which inputs go through audio extraction, which through conversion, and
    which pass through unchanged. The codec work itself is external; its
    outcome is a parameter. */
module AudioConverter {
  import opened Results
  import opened Text
  import opened Paths

  const ExtractedName := "extracted_audio.wav"
  const ConvertedName := "converted_audio.wav"

  datatype ConverterError =
    | ExtractionFailed(stdout: string, stderr: string)  // ffmpeg.Error from ffmpeg-python
    | ConversionFailed(stderr: string)                  // pydub could not decode or export

  /** `extract_audio`: only an input whose name ends in `.mp4` (case
      sensitive) is sent to ffmpeg, whose outcome is `ffmpeg`; the audio is
      written to a fixed name in the output directory. */
  function ExtractAudio(inputFile: string, outputDir: string, ffmpeg: CommandResult): (r: Result<string, ConverterError>)
    ensures !EndsWith(inputFile, ".mp4") ==> r == Ok(inputFile)
    ensures EndsWith(inputFile, ".mp4") ==>
              (r.Ok? <==> ffmpeg.Succeeded())
              && (r.Ok? ==> r.value == PathJoin(outputDir, ExtractedName))
              && (r.Err? ==> r.error == ExtractionFailed(ffmpeg.stdout, ffmpeg.stderr))
  {
    if !EndsWith(inputFile, ".mp4") then Ok(inputFile)
    else if ffmpeg.Succeeded() then Ok(PathJoin(outputDir, ExtractedName))
    else Err(ExtractionFailed(ffmpeg.stdout, ffmpeg.stderr))
  }

  /** `convert_to_wav`: a path already ending in `.wav` is returned as it is;
      anything else is decoded and exported (outcome `pydub`) to a fixed name
      in the output directory. */
  function ConvertToWav(audioPath: string, outputDir: string, pydub: CommandResult): (r: Result<string, ConverterError>)
    ensures EndsWith(audioPath, ".wav") ==> r == Ok(audioPath)
    ensures !EndsWith(audioPath, ".wav") ==>
              (r.Ok? <==> pydub.Succeeded())
              && (r.Ok? ==> r.value == PathJoin(outputDir, ConvertedName))
  {
    if EndsWith(audioPath, ".wav") then Ok(audioPath)
    else if pydub.Succeeded() then Ok(PathJoin(outputDir, ConvertedName))
    else Err(ConversionFailed(pydub.stderr))
  }

  /** `process`: extraction followed by conversion. */
  function Process(inputFile: string, outputDir: string, ffmpeg: CommandResult, pydub: CommandResult): Result<string, ConverterError> {
    var audioPath :- ExtractAudio(inputFile, outputDir, ffmpeg);
    ConvertToWav(audioPath, outputDir, pydub)
  }

  lemma WavIsNotMp4(s: string)
    requires EndsWith(s, ".wav")
    ensures !EndsWith(s, ".mp4")
  {
    assert s[|s| - 1] == ".wav"[3];
  }

  /** Whatever `process` produces is a `.wav` path. */
  lemma ProcessEndsInWav(inputFile: string, outputDir: string, ffmpeg: CommandResult, pydub: CommandResult)
    requires Process(inputFile, outputDir, ffmpeg, pydub).Ok?
    ensures EndsWith(Process(inputFile, outputDir, ffmpeg, pydub).value, ".wav")
  {
  }

  /** For an `.mp4` input the conversion step never runs: the extracted file
      already ends in `.wav`, so pydub's outcome is irrelevant. */
  lemma Mp4SkipsConversion(inputFile: string, outputDir: string, ffmpeg: CommandResult, pydub: CommandResult)
    requires EndsWith(inputFile, ".mp4")
    ensures Process(inputFile, outputDir, ffmpeg, pydub) == ExtractAudio(inputFile, outputDir, ffmpeg)
  {
  }

  /** Running `process` again on its own result hands the same path back,
      whatever the output directory and whatever the external tools would do. */
  lemma ProcessIdempotent(inputFile: string, outputDir: string, ffmpeg: CommandResult, pydub: CommandResult,
                          outputDir': string, ffmpeg': CommandResult, pydub': CommandResult)
    requires Process(inputFile, outputDir, ffmpeg, pydub).Ok?
    ensures var wav := Process(inputFile, outputDir, ffmpeg, pydub).value;
            Process(wav, outputDir', ffmpeg', pydub') == Ok(wav)
  {
    var wav := Process(inputFile, outputDir, ffmpeg, pydub).value;
    ProcessEndsInWav(inputFile, outputDir, ffmpeg, pydub);
    WavIsNotMp4(wav);
  }

  /** The extension test is case sensitive: `.MP4` is not extracted but goes
      to the conversion step like any other non-`.wav` input. */
  lemma UpperCaseMp4IsConverted(outputDir: string, ffmpeg: CommandResult, pydub: CommandResult)
    requires pydub.Succeeded()
    ensures Process("talk.MP4", outputDir, ffmpeg, pydub) == Ok(PathJoin(outputDir, ConvertedName))
  {
    assert !EndsWith("talk.MP4", ".mp4") by { assert "talk.MP4"[6] != ".mp4"[2]; }
    assert !EndsWith("talk.MP4", ".wav") by { assert "talk.MP4"[7] != ".wav"[3]; }
  }
}

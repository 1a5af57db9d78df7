/** `AudioProcessor.transcribe_audio` (audio_transcriber/audio_processor.py):
    run the recognition client on every chunk in order, save the output of
    each run that succeeds as `transcription_<k>.txt`, carry on past the
    ones that fail, and merge whatever was saved. The transcription
    directory is a listing of entries; the recognition client is the
    parameter `run`. */
module Transcription {
  import opened Results
  import opened Sorting
  import opened Merge

  /** The argument vector that runs the recognition client on one chunk:
      the chunk is the `--audio-file`, the settings come from `config.ini`,
      and punctuation and speaker labels are switched on (the merge keeps only
      labelled lines). */
  function RecognizeCommand(audioPath: string): (argv: seq<string>)
    ensures |argv| == 11
    ensures argv[..5] == ["python", "-m", "clients.main", "recognize", "file"]
    ensures argv[5..7] == ["--audio-file", audioPath]
    ensures argv[7..] == ["--config", "config.ini", "--enable-punctuator", "--enable-speaker-labeling"]
  {
    ["python", "-m", "clients.main", "recognize", "file", "--audio-file", audioPath,
     "--config", "config.ini", "--enable-punctuator", "--enable-speaker-labeling"]
  }

  /** Chunks differ only in the `--audio-file` argument. */
  lemma RecognizeCommandsDifferInAudioOnly(a: string, b: string)
    ensures forall i :: 0 <= i < 11 && i != 6 ==> RecognizeCommand(a)[i] == RecognizeCommand(b)[i]
    ensures RecognizeCommand(a) == RecognizeCommand(b) <==> a == b
  {
    if RecognizeCommand(a) == RecognizeCommand(b) {
      assert RecognizeCommand(a)[6] == a;
    }
  }

  /** What the client reported for each chunk, in chunk order. */
  function Outcomes(audioPaths: seq<string>, run: seq<string> -> CommandResult): (r: seq<CommandResult>)
    ensures |r| == |audioPaths|
    ensures forall k :: 0 <= k < |r| ==> r[k] == run(RecognizeCommand(audioPaths[k]))
  {
    seq(|audioPaths|, k requires 0 <= k < |audioPaths| => run(RecognizeCommand(audioPaths[k])))
  }

  // ---------------------------------------------------------------------------
  // The transcription directory

  /** The content of the file called `name`, if there is one. */
  function Lookup(dir: seq<FileEntry>, name: string): (r: Option<string>)
    ensures r.Some? ==> FileEntry(name, r.value) in dir
    ensures r.None? ==> forall f <- dir :: f.name != name
    decreases |dir|
  {
    if |dir| == 0 then None
    else if dir[0].name == name then Some(dir[0].content)
    else
      var r := Lookup(dir[1..], name);
      assert forall f <- dir :: f == dir[0] || f in dir[1..];
      r
  }

  /** `open(name, 'w').write(content)`: an existing file is overwritten in
      place, a new one is added at the end of the listing. */
  function Write(dir: seq<FileEntry>, name: string, content: string): (r: seq<FileEntry>)
    ensures (forall f <- dir :: f.name != name) ==> r == dir + [FileEntry(name, content)]
    decreases |dir|
  {
    if |dir| == 0 then [FileEntry(name, content)]
    else if dir[0].name == name then [FileEntry(name, content)] + dir[1..]
    else
      assert (forall f <- dir :: f.name != name) ==> forall f <- dir[1..] :: f.name != name;
      assert dir == [dir[0]] + dir[1..];
      [dir[0]] + Write(dir[1..], name, content)
  }

  /** Reading a file back after writing it gives what was written. */
  lemma {:induction false} WriteThenLookup(dir: seq<FileEntry>, name: string, content: string)
    ensures Lookup(Write(dir, name, content), name) == Some(content)
    decreases |dir|
  {
    if |dir| > 0 && dir[0].name != name {
      WriteThenLookup(dir[1..], name, content);
      assert ([dir[0]] + Write(dir[1..], name, content))[1..] == Write(dir[1..], name, content);
    }
  }

  /** Writing one file leaves every other file as it was. */
  lemma {:induction false} WriteKeepsOthers(dir: seq<FileEntry>, name: string, content: string, other: string)
    requires other != name
    ensures Lookup(Write(dir, name, content), other) == Lookup(dir, other)
    decreases |dir|
  {
    if |dir| > 0 {
      if dir[0].name == name {
        assert ([FileEntry(name, content)] + dir[1..])[1..] == dir[1..];
      } else {
        WriteKeepsOthers(dir[1..], name, content, other);
        assert ([dir[0]] + Write(dir[1..], name, content))[1..] == Write(dir[1..], name, content);
      }
    }
  }

  // ---------------------------------------------------------------------------
  // The loop

  /** Distinct chunks are saved under distinct names. */
  ghost predicate Injective(nameOf: nat -> string) {
    forall a: nat, b: nat :: a != b ==> nameOf(a) != nameOf(b)
  }

  lemma TranscriptNameIsInjective()
    ensures Injective(TranscriptName)
  {
    forall a: nat, b: nat | a != b ensures TranscriptName(a) != TranscriptName(b) {
      TranscriptNamesDiffer(a, b);
    }
  }

  /** The loop body for chunks `first`, `first + 1`, ...: a successful run
      saves its stdout verbatim under the chunk's name, a failed one writes
      nothing, and the loop goes on either way. */
  function Record(dir: seq<FileEntry>, outcomes: seq<CommandResult>, first: nat, nameOf: nat -> string): seq<FileEntry>
    decreases |outcomes|
  {
    if |outcomes| == 0 then dir
    else
      var saved := if outcomes[0].Succeeded() then Write(dir, nameOf(first), outcomes[0].stdout) else dir;
      Record(saved, outcomes[1..], first + 1, nameOf)
  }

  /** After the loop, chunk `k`'s file holds that chunk's output if its run
      succeeded, and whatever was there before if it failed. */
  lemma {:induction false} RecordedTranscript(dir: seq<FileEntry>, outcomes: seq<CommandResult>, first: nat,
                                              nameOf: nat -> string, k: nat)
    requires Injective(nameOf)
    requires k < |outcomes|
    ensures Lookup(Record(dir, outcomes, first, nameOf), nameOf(first + k))
            == if outcomes[k].Succeeded() then Some(outcomes[k].stdout) else Lookup(dir, nameOf(first + k))
    decreases |outcomes|
  {
    var name := nameOf(first + k);
    var saved := if outcomes[0].Succeeded() then Write(dir, nameOf(first), outcomes[0].stdout) else dir;
    if k == 0 {
      RecordLeavesOthers(saved, outcomes[1..], first + 1, nameOf, name);
      if outcomes[0].Succeeded() {
        WriteThenLookup(dir, name, outcomes[0].stdout);
      }
    } else {
      assert outcomes[1..][k - 1] == outcomes[k];
      RecordedTranscript(saved, outcomes[1..], first + 1, nameOf, k - 1);
      if outcomes[0].Succeeded() {
        WriteKeepsOthers(dir, nameOf(first), outcomes[0].stdout, name);
      }
    }
  }

  /** The loop touches no file other than those of its chunks. */
  lemma {:induction false} RecordLeavesOthers(dir: seq<FileEntry>, outcomes: seq<CommandResult>, first: nat,
                                              nameOf: nat -> string, name: string)
    requires forall k: nat :: first <= k < first + |outcomes| ==> name != nameOf(k)
    ensures Lookup(Record(dir, outcomes, first, nameOf), name) == Lookup(dir, name)
    decreases |outcomes|
  {
    if |outcomes| > 0 {
      var saved := if outcomes[0].Succeeded() then Write(dir, nameOf(first), outcomes[0].stdout) else dir;
      RecordLeavesOthers(saved, outcomes[1..], first + 1, nameOf, name);
      if outcomes[0].Succeeded() {
        WriteKeepsOthers(dir, nameOf(first), outcomes[0].stdout, name);
      }
    }
  }

  /** `transcribe_audio(audio_paths)`: the loop over chunks 1, 2, ..., saving
      chunk `k` as `transcription_<k>.txt`, then the merge, which runs
      whatever the loop did. */
  function TranscribeAudio(dir: seq<FileEntry>, audioPaths: seq<string>, run: seq<string> -> CommandResult): Result<string, MergeError> {
    MergeTranscriptions(Record(dir, Outcomes(audioPaths, run), 1, TranscriptName))
  }

  // ---------------------------------------------------------------------------
  // A fresh transcription directory

  /** The files the loop saves, in chunk order: one per successful run. */
  function Saved(outcomes: seq<CommandResult>, first: nat, nameOf: nat -> string): (r: seq<FileEntry>)
    ensures forall f :: f in r <==> exists k :: 0 <= k < |outcomes| && outcomes[k].Succeeded()
                                                 && f == FileEntry(nameOf(first + k), outcomes[k].stdout)
    decreases |outcomes|
  {
    if |outcomes| == 0 then []
    else
      var head := if outcomes[0].Succeeded() then [FileEntry(nameOf(first), outcomes[0].stdout)] else [];
      var rest := Saved(outcomes[1..], first + 1, nameOf);
      assert forall k :: 1 <= k < |outcomes| ==> outcomes[1..][k - 1] == outcomes[k];
      head + rest
  }

  /** No file of `dir` has the name of chunk `first` or of a later one. */
  ghost predicate NoneFrom(dir: seq<FileEntry>, first: nat, nameOf: nat -> string) {
    forall f <- dir, k: nat :: first <= k ==> f.name != nameOf(k)
  }

  /** Starting from a directory that holds none of its files, the loop only
      appends them, in chunk order. */
  lemma {:induction false} RecordAppends(dir: seq<FileEntry>, outcomes: seq<CommandResult>, first: nat, nameOf: nat -> string)
    requires Injective(nameOf)
    requires NoneFrom(dir, first, nameOf)
    ensures Record(dir, outcomes, first, nameOf) == dir + Saved(outcomes, first, nameOf)
    decreases |outcomes|
  {
    if |outcomes| == 0 {
      assert dir + [] == dir;
    } else {
      var name := nameOf(first);
      var entry := FileEntry(name, outcomes[0].stdout);
      var head := if outcomes[0].Succeeded() then [entry] else [];
      var saved := dir + head;
      assert forall f <- dir :: f.name != name;
      if outcomes[0].Succeeded() {
        assert Write(dir, name, outcomes[0].stdout) == saved;
      } else {
        assert saved == dir;
      }
      assert Record(dir, outcomes, first, nameOf) == Record(saved, outcomes[1..], first + 1, nameOf);
      assert NoneFrom(saved, first + 1, nameOf);
      RecordAppends(saved, outcomes[1..], first + 1, nameOf);
      assert Saved(outcomes, first, nameOf) == head + Saved(outcomes[1..], first + 1, nameOf);
      assert saved + Saved(outcomes[1..], first + 1, nameOf) == dir + (head + Saved(outcomes[1..], first + 1, nameOf));
    }
  }

  /** The saved files come out in ascending order of any key that reads a
      file's chunk number back from its name. */
  lemma {:induction false} SavedInOrder(outcomes: seq<CommandResult>, first: nat, nameOf: nat -> string,
                                        key: FileEntry -> int)
    requires forall k: nat, content: string :: key(FileEntry(nameOf(k), content)) == k
    ensures var saved := Saved(outcomes, first, nameOf);
            && (forall f <- saved :: first <= key(f))
            && SortedBy(saved, key)
    decreases |outcomes|
  {
    if |outcomes| > 0 {
      SavedInOrder(outcomes[1..], first + 1, nameOf, key);
      var rest := Saved(outcomes[1..], first + 1, nameOf);
      var entry := FileEntry(nameOf(first), outcomes[0].stdout);
      assert key(entry) == first;
      if outcomes[0].Succeeded() {
        var saved := [entry] + rest;
        forall i, j | 0 <= i < j < |saved| ensures key(saved[i]) <= key(saved[j]) {
          assert saved[j] == rest[j - 1] && rest[j - 1] in rest;
          if i > 0 {
            assert saved[i] == rest[i - 1];
          }
        }
        assert forall f <- saved :: f == entry || f in rest;
      }
    }
  }

  lemma {:induction false} NothingSaved(outcomes: seq<CommandResult>, first: nat, nameOf: nat -> string)
    requires forall k :: 0 <= k < |outcomes| ==> !outcomes[k].Succeeded()
    ensures Saved(outcomes, first, nameOf) == []
    decreases |outcomes|
  {
    if |outcomes| > 0 {
      assert forall k :: 1 <= k < |outcomes| ==> outcomes[1..][k - 1] == outcomes[k];
      NothingSaved(outcomes[1..], first + 1, nameOf);
    }
  }

  /** From a fresh transcription directory the merged text has one part for
      each chunk whose run succeeded and kept a speaker line, in chunk
      order; parts are numbered among the saved transcripts, so a failed
      chunk leaves no gap in the numbering. */
  lemma FreshTranscription(audioPaths: seq<string>, run: seq<string> -> CommandResult)
    ensures var saved := Saved(Outcomes(audioPaths, run), 1, TranscriptName);
            TranscribeAudio([], audioPaths, run) == Ok(Render(Sections(KeptPerFile(saved), 1)))
  {
    var outcomes := Outcomes(audioPaths, run);
    var saved := Saved(outcomes, 1, TranscriptName);
    TranscriptNameIsInjective();
    RecordAppends([], outcomes, 1, TranscriptName);
    assert [] + saved == saved;
    forall k: nat, content: string ensures SortKey(FileEntry(TranscriptName(k), content)) == k {
      TranscriptKey(k, content);
    }
    SavedInOrder(outcomes, 1, TranscriptName, SortKey);
    forall f | f in saved ensures Indexed(f) {
      var k :| 0 <= k < |outcomes| && outcomes[k].Succeeded() && f == FileEntry(TranscriptName(1 + k), outcomes[k].stdout);
      TranscriptKey(1 + k, outcomes[k].stdout);
    }
    OnlyTranscripts(saved);
    SortOfSorted(saved, SortKey);
  }

  /** When every run fails, the merge still runs and writes an empty file. */
  lemma AllRunsFailed(audioPaths: seq<string>, run: seq<string> -> CommandResult)
    requires forall p <- audioPaths :: !run(RecognizeCommand(p)).Succeeded()
    ensures TranscribeAudio([], audioPaths, run) == Ok("")
  {
    var outcomes := Outcomes(audioPaths, run);
    FreshTranscription(audioPaths, run);
    forall k | 0 <= k < |outcomes| ensures !outcomes[k].Succeeded() {
      assert audioPaths[k] in audioPaths;
    }
    NothingSaved(outcomes, 1, TranscriptName);
    assert KeptPerFile([]) == [];
  }

  /** A failed middle chunk: chunk 3's transcript becomes Part 2. */
  lemma FailedChunkRenumbers(a: string, b: string, c: string, run: seq<string> -> CommandResult)
    requires run(RecognizeCommand(a)).Succeeded() && !run(RecognizeCommand(b)).Succeeded() && run(RecognizeCommand(c)).Succeeded()
    requires FileLines(run(RecognizeCommand(a)).stdout) != [] && FileLines(run(RecognizeCommand(c)).stdout) != []
    ensures TranscribeAudio([], [a, b, c], run)
            == Ok(Render([Section(1, FileLines(run(RecognizeCommand(a)).stdout)),
                          Section(2, FileLines(run(RecognizeCommand(c)).stdout))]))
  {
    var outcomes := Outcomes([a, b, c], run);
    FreshTranscription([a, b, c], run);
    assert outcomes[0] == run(RecognizeCommand(a)) && outcomes[1] == run(RecognizeCommand(b))
        && outcomes[2] == run(RecognizeCommand(c));
    var x, y := FileLines(outcomes[0].stdout), FileLines(outcomes[2].stdout);
    var kept := KeptPerFile(Saved(outcomes, 1, TranscriptName));
    assert kept == [x, y] by { SkippedMiddleKept(outcomes, 1, TranscriptName); }
    assert Sections(kept, 1) == [Section(1, x), Section(2, y)] by { TwoSections(x, y); }
  }

  /** What a failed middle run leaves for the merge: the two other files'
      lines, side by side, whatever they are called. */
  lemma SkippedMiddleKept(outcomes: seq<CommandResult>, first: nat, nameOf: nat -> string)
    requires |outcomes| == 3 && outcomes[0].Succeeded() && !outcomes[1].Succeeded() && outcomes[2].Succeeded()
    ensures KeptPerFile(Saved(outcomes, first, nameOf)) == [FileLines(outcomes[0].stdout), FileLines(outcomes[2].stdout)]
  {
    var fa, fc := FileEntry(nameOf(first), outcomes[0].stdout), FileEntry(nameOf(first + 2), outcomes[2].stdout);
    var saved := Saved(outcomes, first, nameOf);
    assert saved == [fa, fc] by { SkippedMiddle(outcomes, first, nameOf); }
    KeptPerFilePair(fa, fc);
  }

  lemma SkippedMiddle(outcomes: seq<CommandResult>, first: nat, nameOf: nat -> string)
    requires |outcomes| == 3 && outcomes[0].Succeeded() && !outcomes[1].Succeeded() && outcomes[2].Succeeded()
    ensures Saved(outcomes, first, nameOf)
            == [FileEntry(nameOf(first), outcomes[0].stdout), FileEntry(nameOf(first + 2), outcomes[2].stdout)]
  {
    var o1 := outcomes[1..];
    assert o1 == [outcomes[1], outcomes[2]];
    var o2 := o1[1..];
    assert o2 == [outcomes[2]] && o2[1..] == [];
    assert Saved(o2, first + 2, nameOf) == [FileEntry(nameOf(first + 2), outcomes[2].stdout)];
    assert Saved(o1, first + 1, nameOf) == Saved(o2, first + 2, nameOf);
  }
}

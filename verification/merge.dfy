/** `AudioProcessor.merge_transcriptions` (audio_transcriber/audio_processor.py):
    pick the raw transcripts out of the transcription directory, order them
    by the number in their names, keep only the speaker lines of each, and
    write one `Part <i>` section per transcript that kept any line. The
    directory listing and the file contents are inputs; the merged text is
    the output. */
module Merge {
  import opened Results
  import opened Text
  import opened Sorting

  const TranscriptPrefix := "transcription_"

  /** The recognition client's status line, which mentions a speaker but is
      not an utterance. */
  const Banner := "Speaker labeling enabled:"

  const SpeakerWord := "Speaker"
  const LabelDelimiter := ":"

  /** One file of the transcription directory: its name and its text. */
  datatype FileEntry = FileEntry(name: string, content: string)

  /** `int()` raised `ValueError` on the number part of this file name. */
  datatype MergeError = InvalidIndex(name: string)

  /** One `Part` section of the merged transcript. */
  datatype Section = Section(part: nat, lines: seq<string>)

  // ---------------------------------------------------------------------------
  // File names and their numbers

  /** The raw transcript of chunk `k`: `transcription_<k>.txt`. */
  function TranscriptName(k: nat): string {
    TranscriptPrefix + NatToString(k) + ".txt"
  }

  predicate IsTranscriptName(name: string) {
    StartsWith(name, TranscriptPrefix)
  }

  lemma SplitAtLeastTwo(s: string, sep: char, i: nat)
    requires i < |s| && s[i] == sep
    ensures |Split(s, sep)| >= 2
  {
    JoinSplit(s, sep);
    assert s[i] in s;
  }

  /** The sort key `int(x.split("_")[1].split(".")[0])`; `None` where `int()`
      raises. */
  function TranscriptIndex(name: string): Option<int>
    requires IsTranscriptName(name)
  {
    assert name[13] == TranscriptPrefix[13];
    SplitAtLeastTwo(name, '_', 13);
    ParseInt(Split(Split(name, '_')[1], '.')[0])
  }

  lemma SplitInTwo(a: string, b: string, sep: char)
    requires sep !in a && sep !in b
    ensures Split(a + [sep] + b, sep) == [a, b]
  {
    SplitAtSeparator(a, b, sep);
    SplitWithoutSeparator(a, sep);
    SplitWithoutSeparator(b, sep);
  }

  lemma DigitsLack(d: string, c: char)
    requires IsDigitString(d) && !IsDigit(c)
    ensures c !in d
  {
    forall j | 0 <= j < |d| ensures d[j] != c {
      assert d[j] in d;
    }
  }

  /** The name of chunk `k`'s transcript carries `k` back. */
  lemma TranscriptIndexOfName(k: nat)
    ensures IsTranscriptName(TranscriptName(k))
    ensures TranscriptIndex(TranscriptName(k)) == Some(k)
  {
    var d := NatToString(k);
    var name := TranscriptName(k);
    var tail := d + ".txt";
    assert name == "transcription" + ['_'] + tail;
    assert name[..|TranscriptPrefix|] == TranscriptPrefix;
    DigitsLack(d, '_');
    DigitsLack(d, '.');
    assert '_' !in tail by {
      forall j | 0 <= j < |tail| ensures tail[j] != '_' {
        if j < |d| { assert tail[j] == d[j]; }
      }
    }
    SplitInTwo("transcription", tail, '_');
    assert tail == d + ['.'] + "txt";
    SplitInTwo(d, "txt", '.');
    ParseIntOfNatToString(k);
  }

  /** Distinct chunks get distinct transcript names. */
  lemma TranscriptNamesDiffer(a: nat, b: nat)
    requires a != b
    ensures TranscriptName(a) != TranscriptName(b)
  {
    TranscriptIndexOfName(a);
    TranscriptIndexOfName(b);
  }

  // ---------------------------------------------------------------------------
  // Choosing and ordering the transcripts

  /** `[f for f in os.listdir(dir) if f.startswith("transcription_")]`,
      listing order kept. */
  function TranscriptFiles(listing: seq<FileEntry>): (r: seq<FileEntry>)
    ensures |r| <= |listing|
    ensures forall f :: f in r <==> f in listing && IsTranscriptName(f.name)
    decreases |listing|
  {
    if |listing| == 0 then []
    else (if IsTranscriptName(listing[0].name) then [listing[0]] else []) + TranscriptFiles(listing[1..])
  }

  lemma {:induction false} TranscriptFilesAppend(a: seq<FileEntry>, b: seq<FileEntry>)
    ensures TranscriptFiles(a + b) == TranscriptFiles(a) + TranscriptFiles(b)
    decreases |a|
  {
    if |a| > 0 {
      var x := if IsTranscriptName(a[0].name) then [a[0]] else [];
      assert (a + b)[0] == a[0];
      assert (a + b)[1..] == a[1..] + b;
      TranscriptFilesAppend(a[1..], b);
      assert TranscriptFiles(a + b) == x + (TranscriptFiles(a[1..]) + TranscriptFiles(b));
      assert TranscriptFiles(a) == x + TranscriptFiles(a[1..]);
    } else {
      assert a + b == b;
    }
  }

  predicate Indexed(f: FileEntry) {
    IsTranscriptName(f.name) && TranscriptIndex(f.name).Some?
  }

  predicate AllIndexed(s: seq<FileEntry>) {
    forall f <- s :: Indexed(f)
  }

  /** The number a transcript sorts by. Only consulted once every name has
      been found to carry a number; the 0 for other files is never used. */
  function SortKey(f: FileEntry): int {
    if Indexed(f) then TranscriptIndex(f.name).value else 0
  }

  /** The first element, in order, that `ok` rejects. Applied to `Indexed`
      it finds the file whose `ValueError` escapes: `sorted` computes every
      key before it compares any. */
  function FirstRejected<T>(s: seq<T>, ok: T -> bool): (r: Option<T>)
    ensures r.None? <==> forall x <- s :: ok(x)
    ensures r.Some? ==> exists i :: 0 <= i < |s| && s[i] == r.value && !ok(s[i])
                                    && forall j :: 0 <= j < i ==> ok(s[j])
    decreases |s|
  {
    if |s| == 0 then None
    else if !ok(s[0]) then Some(s[0])
    else
      var r := FirstRejected(s[1..], ok);
      assert forall j :: 1 <= j < |s| ==> s[1..][j - 1] == s[j];
      assert forall x <- s :: x == s[0] || x in s[1..];
      r
  }

  /** The transcripts in merge order: every listed transcript exactly once,
      ascending by number, ties in listing order; or the `ValueError` of the
      first name whose number does not parse. */
  function SortedTranscripts(listing: seq<FileEntry>): (r: Result<seq<FileEntry>, MergeError>)
    ensures r.Ok? <==> AllIndexed(TranscriptFiles(listing))
    ensures r.Ok? ==> && multiset(r.value) == multiset(TranscriptFiles(listing))
                      && SortedBy(r.value, SortKey)
                      && forall k :: WithKey(r.value, SortKey, k) == WithKey(TranscriptFiles(listing), SortKey, k)
    ensures r.Err? ==> exists f <- TranscriptFiles(listing) :: !Indexed(f) && r.error == InvalidIndex(f.name)
    ensures r.Err? ==> var files := TranscriptFiles(listing);
                       exists i :: 0 <= i < |files| && !Indexed(files[i]) && r.error == InvalidIndex(files[i].name)
                                   && forall j :: 0 <= j < i ==> Indexed(files[j])
  {
    var files := TranscriptFiles(listing);
    match FirstRejected(files, Indexed)
    case Some(bad) => Err(InvalidIndex(bad.name))
    case None =>
      forall k ensures WithKey(SortBy(files, SortKey), SortKey, k) == WithKey(files, SortKey, k) {
        SortIsStable(files, SortKey, k);
      }
      Ok(SortBy(files, SortKey))
  }

  // ---------------------------------------------------------------------------
  // Filtering lines

  /** A raw line survives when it is not the status banner and names a
      speaker followed by a label delimiter somewhere. */
  predicate KeepLine(line: string) {
    !Contains(line, Banner) && Contains(line, SpeakerWord) && Contains(line, LabelDelimiter)
  }

  /** What a merged line looks like: it names a speaker and a label
      delimiter, is not the status banner, and is neither blank nor padded
      with whitespace. */
  predicate SpeakerLine(x: string) {
    && Contains(x, SpeakerWord) && Contains(x, LabelDelimiter) && !Contains(x, Banner)
    && |x| > 0 && !IsSpace(x[0]) && !IsSpace(x[|x| - 1])
  }

  /** Stripping a kept line yields a speaker line. */
  lemma KeptLineFacts(line: string)
    requires KeepLine(line)
    ensures SpeakerLine(Strip(line))
  {
    StripKeepsWord(line, SpeakerWord);
    StripKeepsWord(line, LabelDelimiter);
    if Contains(Strip(line), Banner) {
      StripContainsOnlyOriginal(line, Banner);
      assert false;
    }
  }

  /** What one raw line contributes to its section: its stripped text when
      it is kept, nothing otherwise. */
  function CleanLine(line: string): (r: seq<string>)
    ensures |r| <= 1
    ensures r != [] <==> KeepLine(line)
    ensures KeepLine(line) ==> r == [Strip(line)]
    ensures forall x <- r :: SpeakerLine(x)
  {
    if KeepLine(line) then
      KeptLineFacts(line);
      [Strip(line)]
    else []
  }

  /** The per-file cleaning loop: kept lines, stripped, in their original
      order. */
  function CleanedLines(lines: seq<string>): (kept: seq<string>)
    ensures |kept| <= |lines|
    ensures forall x <- kept :: SpeakerLine(x)
    decreases |lines|
  {
    if |lines| == 0 then [] else CleanLine(lines[0]) + CleanedLines(lines[1..])
  }

  /** Cleaning works line by line: it commutes with concatenation, so kept
      lines keep their relative order. */
  lemma {:induction false} CleanedLinesAppend(a: seq<string>, b: seq<string>)
    ensures CleanedLines(a + b) == CleanedLines(a) + CleanedLines(b)
    decreases |a|
  {
    if |a| > 0 {
      assert (a + b)[0] == a[0];
      assert (a + b)[1..] == a[1..] + b;
      CleanedLinesAppend(a[1..], b);
      var x := CleanLine(a[0]);
      assert CleanedLines(a + b) == x + (CleanedLines(a[1..]) + CleanedLines(b));
    } else {
      assert a + b == b;
    }
  }

  /** Every kept raw line reaches the output, stripped. */
  lemma {:induction false} KeptLineSurvives(lines: seq<string>, i: nat)
    requires i < |lines| && KeepLine(lines[i])
    ensures Strip(lines[i]) in CleanedLines(lines)
    decreases i
  {
    if i == 0 {
      assert CleanLine(lines[0]) == [Strip(lines[0])];
    } else {
      assert lines[1..][i - 1] == lines[i];
      KeptLineSurvives(lines[1..], i - 1);
    }
  }

  /** Every output line is a kept raw line, stripped. */
  lemma {:induction false} CleanedLineHasSource(lines: seq<string>, x: string)
    requires x in CleanedLines(lines)
    ensures exists i :: 0 <= i < |lines| && KeepLine(lines[i]) && x == Strip(lines[i])
    decreases |lines|
  {
    if x in CleanLine(lines[0]) {
      assert KeepLine(lines[0]) && x == Strip(lines[0]);
    } else {
      CleanedLineHasSource(lines[1..], x);
      var i :| 0 <= i < |lines[1..]| && KeepLine(lines[1..][i]) && x == Strip(lines[1..][i]);
      assert lines[i + 1] == lines[1..][i];
    }
  }

  lemma StripStaysWithout(s: string, c: char)
    requires c !in s
    ensures c !in Strip(s)
  {
    var i := StripWindow(s);
    forall j | 0 <= j < |Strip(s)| ensures Strip(s)[j] != c {
      assert Strip(s)[j] == s[i + j] && s[i + j] in s;
    }
  }

  /** The kept lines of one raw transcript (`content.split('\n')`, cleaned):
      none is empty and none spans a line break. */
  function FileLines(content: string): (kept: seq<string>)
    ensures kept == CleanedLines(Split(TranslateNewlines(content), '\n'))
    ensures forall x <- kept :: |x| > 0 && '\n' !in x
  {
    var lines := Split(TranslateNewlines(content), '\n');
    var kept := CleanedLines(lines);
    assert forall x <- kept :: '\n' !in x by {
      forall x | x in kept ensures '\n' !in x {
        CleanedLineHasSource(lines, x);
        var i :| 0 <= i < |lines| && KeepLine(lines[i]) && x == Strip(lines[i]);
        assert lines[i] in lines;
        StripStaysWithout(lines[i], '\n');
      }
    }
    kept
  }

  // ---------------------------------------------------------------------------
  // Sections and the merged text

  /** `for i, fname in enumerate(files, first)`: a section for each file that
      kept a line, numbered by the file's position in `files`; a file that
      kept nothing emits nothing but still uses up its number. */
  function Sections(kept: seq<seq<string>>, first: nat): (r: seq<Section>)
    ensures |r| <= |kept|
    ensures forall s <- r :: && first <= s.part < first + |kept|
                             && s.lines == kept[s.part - first] && s.lines != []
    decreases |kept|
  {
    if |kept| == 0 then []
    else
      assert forall j :: 1 <= j < |kept| ==> kept[1..][j - 1] == kept[j];
      (if kept[0] == [] then [] else [Section(first, kept[0])]) + Sections(kept[1..], first + 1)
  }

  lemma TwoSections(x: seq<string>, y: seq<string>)
    requires x != [] && y != []
    ensures Sections([x, y], 1) == [Section(1, x), Section(2, y)]
  {
    assert [x, y][1..] == [y] && [y][1..] == [];
    assert Sections([y], 2) == [Section(2, y)];
  }

  predicate Ascending(sections: seq<Section>) {
    forall i, j :: 0 <= i < j < |sections| ==> sections[i].part < sections[j].part
  }

  lemma AscendingCons(s: Section, rest: seq<Section>)
    requires Ascending(rest) && forall t <- rest :: s.part < t.part
    ensures Ascending([s] + rest)
  {
    var r := [s] + rest;
    forall i, j | 0 <= i < j < |r| ensures r[i].part < r[j].part {
      assert r[j] == rest[j - 1] && rest[j - 1] in rest;
      if i > 0 {
        assert r[i] == rest[i - 1];
      }
    }
  }

  /** Section numbers strictly increase. */
  lemma {:induction false} SectionsAscend(kept: seq<seq<string>>, first: nat)
    ensures Ascending(Sections(kept, first))
    decreases |kept|
  {
    if |kept| > 0 {
      SectionsAscend(kept[1..], first + 1);
      var rest := Sections(kept[1..], first + 1);
      if kept[0] != [] {
        AscendingCons(Section(first, kept[0]), rest);
      } else {
        assert Sections(kept, first) == rest;
      }
    }
  }

  /** Every file that kept a line gets its section, numbered by its
      position; with the contract of `Sections`, a file has a section
      exactly when it kept a line. */
  lemma {:induction false} SectionsCoverFiles(kept: seq<seq<string>>, first: nat)
    ensures forall j :: 0 <= j < |kept| && kept[j] != [] ==> Section(first + j, kept[j]) in Sections(kept, first)
    decreases |kept|
  {
    if |kept| > 0 {
      SectionsCoverFiles(kept[1..], first + 1);
      assert forall j :: 1 <= j < |kept| ==> kept[1..][j - 1] == kept[j];
    }
  }

  /** The kept lines of each file, in order. */
  function KeptPerFile(files: seq<FileEntry>): (r: seq<seq<string>>)
    ensures |r| == |files|
    ensures forall j :: 0 <= j < |files| ==> r[j] == FileLines(files[j].content)
  {
    seq(|files|, j requires 0 <= j < |files| => FileLines(files[j].content))
  }

  lemma KeptPerFilePair(f: FileEntry, g: FileEntry)
    ensures KeptPerFile([f, g]) == [FileLines(f.content), FileLines(g.content)]
  {
    var kept := KeptPerFile([f, g]);
    assert kept[0] == FileLines(f.content) && kept[1] == FileLines(g.content);
  }

  predicate WellFormed(s: Section) {
    |s.lines| > 0 && forall l <- s.lines :: |l| > 0 && '\n' !in l
  }

  /** `"Part <part>\n" + "\n".join(lines) + "\n\n"`. */
  function SectionText(s: Section): string {
    "Part " + NatToString(s.part) + "\n" + Join(s.lines, "\n") + "\n\n"
  }

  function Render(sections: seq<Section>): string
    decreases |sections|
  {
    if |sections| == 0 then "" else SectionText(sections[0]) + Render(sections[1..])
  }

  /** The merged transcript as sections, one per sorted transcript that
      keeps a line; the only error is the sort key's `ValueError`. */
  function MergedSections(listing: seq<FileEntry>): (r: Result<seq<Section>, MergeError>)
    ensures r.Ok? <==> SortedTranscripts(listing).Ok?
    ensures r.Ok? ==> forall s <- r.value :: WellFormed(s)
  {
    var sorted :- SortedTranscripts(listing);
    var kept := KeptPerFile(sorted);
    var sections := Sections(kept, 1);
    assert forall s <- sections :: WellFormed(s) by {
      forall s | s in sections ensures WellFormed(s) {
        assert s.lines == FileLines(sorted[s.part - 1].content);
      }
    }
    Ok(sections)
  }

  /** `merge_transcriptions`: the text of the merged file. */
  function MergeTranscriptions(listing: seq<FileEntry>): Result<string, MergeError> {
    var sections :- MergedSections(listing);
    Ok(Render(sections))
  }

  // ---------------------------------------------------------------------------
  // Reading a merged transcript back

  function Header(part: nat): string {
    "Part " + NatToString(part)
  }

  /** The lines one section occupies: header, kept lines, blank separator. */
  function SectionLines(s: Section): seq<string> {
    [Header(s.part)] + s.lines + [""]
  }

  function RenderedLines(sections: seq<Section>): seq<string>
    decreases |sections|
  {
    if |sections| == 0 then [] else SectionLines(sections[0]) + RenderedLines(sections[1..])
  }

  /** The first blank line, or `|lines|` when there is none. */
  function BlankIndex(lines: seq<string>): (i: nat)
    ensures i <= |lines|
    ensures i < |lines| ==> lines[i] == ""
    ensures forall j :: 0 <= j < i ==> lines[j] != ""
    decreases |lines|
  {
    if |lines| == 0 then 0
    else if lines[0] == "" then 0
    else 1 + BlankIndex(lines[1..])
  }

  function ParseHeader(line: string): Option<nat> {
    if StartsWith(line, "Part ") && IsDigitString(line[5..]) then Some(DigitsValue(line[5..])) else None
  }

  /** Reads the lines of a merged transcript back into sections. */
  function ReadSections(lines: seq<string>): Option<seq<Section>>
    decreases |lines|
  {
    if |lines| == 0 then Some([])
    else match ParseHeader(lines[0])
      case None => None
      case Some(part) =>
        var body := lines[1..];
        var n := BlankIndex(body);
        if n == |body| then None
        else match ReadSections(body[n + 1..])
          case None => None
          case Some(rest) => Some([Section(part, body[..n])] + rest)
  }

  lemma HeaderHasNoBreak(part: nat)
    ensures '\n' !in Header(part)
    ensures ParseHeader(Header(part)) == Some(part)
  {
    var d := NatToString(part);
    var h := Header(part);
    assert h[5..] == d;
    forall j | 0 <= j < |h| ensures h[j] != '\n' {
      if j >= 5 {
        assert h[j] == d[j - 5] && d[j - 5] in d;
      }
    }
  }

  /** Splitting the merged text at line breaks gives each section's lines in
      turn, then the empty piece after the final break. */
  lemma SectionTextShape(s: Section, rest: string)
    ensures SectionText(s) + rest == Header(s.part) + ['\n'] + (Join(s.lines, "\n") + ['\n'] + (['\n'] + rest))
  {
  }

  lemma SplitSection(s: Section, rest: string)
    requires WellFormed(s)
    ensures Split(SectionText(s) + rest, '\n') == SectionLines(s) + Split(rest, '\n')
  {
    SectionTextShape(s, rest);
    HeaderHasNoBreak(s.part);
    SplitBlock(Header(s.part), s.lines, rest);
  }

  /** A header line, then lines joined by line breaks, then a blank line:
      splitting gives the header, the lines and an empty piece back. */
  lemma SplitBlock(h: string, lines: seq<string>, rest: string)
    requires '\n' !in h
    requires |lines| > 0 && forall l <- lines :: '\n' !in l
    ensures Split(h + ['\n'] + (Join(lines, "\n") + ['\n'] + (['\n'] + rest)), '\n')
            == [h] + lines + [""] + Split(rest, '\n')
  {
    var body := Join(lines, "\n");
    var x := ['\n'] + rest;
    var y := body + ['\n'] + x;
    assert Split(x, '\n') == [""] + Split(rest, '\n') by {
      SplitAtSeparator([], rest, '\n');
      assert [] + ['\n'] + rest == x;
      assert Split([], '\n') == [""];
    }
    assert Split(y, '\n') == lines + Split(x, '\n') by {
      SplitAtSeparator(body, x, '\n');
      SplitJoin(lines, '\n');
    }
    assert Split(h + ['\n'] + y, '\n') == [h] + Split(y, '\n') by {
      SplitAtSeparator(h, y, '\n');
      SplitWithoutSeparator(h, '\n');
    }
    Regroup([h], lines, [""], Split(rest, '\n'));
  }

  lemma Regroup(p: seq<string>, q: seq<string>, r: seq<string>, t: seq<string>)
    ensures p + (q + (r + t)) == p + q + r + t
  {
  }

  lemma {:induction false} SplitRender(sections: seq<Section>)
    requires forall s <- sections :: WellFormed(s)
    ensures Split(Render(sections), '\n') == RenderedLines(sections) + [""]
    decreases |sections|
  {
    if |sections| > 0 {
      assert sections[0] in sections;
      assert forall t <- sections[1..] :: t in sections;
      SplitRender(sections[1..]);
      SplitSection(sections[0], Render(sections[1..]));
    } else {
      assert Split("", '\n') == [""];
    }
  }

  /** Reading stops each section at its blank separator line. */
  lemma ReadSection(s: Section, tail: seq<string>)
    requires WellFormed(s)
    ensures ReadSections(SectionLines(s) + tail)
            == if ReadSections(tail).Some? then Some([s] + ReadSections(tail).value) else None
  {
    var lines := SectionLines(s) + tail;
    HeaderHasNoBreak(s.part);
    assert lines[0] == Header(s.part);
    var body := lines[1..];
    assert body == s.lines + [""] + tail;
    var n := |s.lines|;
    assert BlankIndex(body) == n by {
      forall j | 0 <= j < n ensures body[j] != "" {
        assert body[j] == s.lines[j] && s.lines[j] in s.lines;
      }
      BlankIndexAt(body, n);
    }
    assert body[n + 1..] == tail;
    assert body[..n] == s.lines;
  }

  /** Reading the section lines back gives the sections. */
  lemma {:induction false} ReadRenderedLines(sections: seq<Section>)
    requires forall s <- sections :: WellFormed(s)
    ensures ReadSections(RenderedLines(sections)) == Some(sections)
    decreases |sections|
  {
    if |sections| > 0 {
      assert sections[0] in sections;
      assert forall t <- sections[1..] :: t in sections;
      ReadRenderedLines(sections[1..]);
      ReadSection(sections[0], RenderedLines(sections[1..]));
      assert sections == [sections[0]] + sections[1..];
    }
  }

  lemma {:induction false} BlankIndexAt(lines: seq<string>, n: nat)
    requires n < |lines| && lines[n] == ""
    requires forall j :: 0 <= j < n ==> lines[j] != ""
    ensures BlankIndex(lines) == n
    decreases n
  {
    if n > 0 {
      assert forall j :: 0 <= j < n - 1 ==> lines[1..][j] == lines[j + 1];
      BlankIndexAt(lines[1..], n - 1);
    }
  }

  /** The merged transcript is unambiguous: read back line by line (dropping
      the empty piece after the final line break) it gives exactly the
      sections it was written from. */
  lemma MergedTextReadsBack(listing: seq<FileEntry>)
    requires MergeTranscriptions(listing).Ok?
    ensures var lines := Split(MergeTranscriptions(listing).value, '\n');
            ReadSections(lines[..|lines| - 1]) == Some(MergedSections(listing).value)
  {
    var sections := MergedSections(listing).value;
    SplitRender(sections);
    ReadRenderedLines(sections);
    var lines := Split(Render(sections), '\n');
    assert lines[..|lines| - 1] == RenderedLines(sections);
  }

  // ---------------------------------------------------------------------------
  // Properties of the whole merge

  /** With unique file numbers the merged text does not depend on the order in
      which the directory lists its files. */
  lemma MergeIgnoresListingOrder(a: seq<FileEntry>, b: seq<FileEntry>)
    requires forall f :: f in a <==> f in b
    requires AllIndexed(TranscriptFiles(a))
    requires UniqueKeys(TranscriptFiles(a), SortKey) && UniqueKeys(TranscriptFiles(b), SortKey)
    ensures MergeTranscriptions(a) == MergeTranscriptions(b)
  {
    var fa, fb := TranscriptFiles(a), TranscriptFiles(b);
    assert AllIndexed(fb);
    SortForgetsOrder(fa, fb, SortKey);
  }

  lemma {:induction false} NoTranscripts(listing: seq<FileEntry>)
    requires forall f <- listing :: !IsTranscriptName(f.name)
    ensures TranscriptFiles(listing) == []
    decreases |listing|
  {
    if |listing| > 0 {
      assert listing[0] in listing;
      assert forall f <- listing[1..] :: f in listing;
      NoTranscripts(listing[1..]);
    }
  }

  /** A directory without transcripts merges to an empty file; the merge does
      not fail. */
  lemma NothingToMerge(listing: seq<FileEntry>)
    requires forall f <- listing :: !IsTranscriptName(f.name)
    ensures MergeTranscriptions(listing) == Ok("")
  {
    NoTranscripts(listing);
  }

  /** A listing of numbered transcripts only is merged in sorted order. */
  lemma OnlyTranscripts(listing: seq<FileEntry>)
    requires forall f <- listing :: Indexed(f)
    ensures SortedTranscripts(listing) == Ok(SortBy(listing, SortKey))
  {
    AllTranscripts(listing);
  }

  lemma {:induction false} AllTranscripts(listing: seq<FileEntry>)
    requires forall f <- listing :: IsTranscriptName(f.name)
    ensures TranscriptFiles(listing) == listing
    decreases |listing|
  {
    if |listing| > 0 {
      assert listing[0] in listing;
      assert forall f <- listing[1..] :: f in listing;
      AllTranscripts(listing[1..]);
      assert listing == [listing[0]] + listing[1..];
    }
  }

  lemma TranscriptKey(k: nat, content: string)
    ensures Indexed(FileEntry(TranscriptName(k), content))
    ensures SortKey(FileEntry(TranscriptName(k), content)) == k
  {
    TranscriptIndexOfName(k);
  }

  /** Numeric, not lexicographic: `transcription_10.txt` is merged after
      `transcription_9.txt` although it sorts before it as a string. */
  lemma NumericOrder(m: nat, n: nat, cm: string, cn: string)
    requires m < n
    ensures var fm, fn := FileEntry(TranscriptName(m), cm), FileEntry(TranscriptName(n), cn);
            SortedTranscripts([fn, fm]) == Ok([fm, fn])
  {
    var fm, fn := FileEntry(TranscriptName(m), cm), FileEntry(TranscriptName(n), cn);
    TranscriptKey(m, cm);
    TranscriptKey(n, cn);
    var files := [fn, fm];
    assert files[0] == fn && files[1] == fm;
    assert forall f <- files :: Indexed(f);
    OnlyTranscripts(files);
    SortPair(fn, fm, SortKey);
  }

  lemma SplitAroundBlankLine(a: string, c: string)
    requires '\n' !in a && '\n' !in c
    ensures Split(a + "\n\n" + c, '\n') == [a, "", c]
  {
    assert a + "\n\n" + c == a + ['\n'] + ([] + ['\n'] + c);
    SplitAtSeparator(a, [] + ['\n'] + c, '\n');
    SplitAtSeparator([], c, '\n');
    SplitWithoutSeparator(a, '\n');
    SplitWithoutSeparator(c, '\n');
    assert Split([], '\n') == [""];
  }

  lemma CleanedThree(a: string, b: string, c: string)
    ensures CleanedLines([a, b, c]) == CleanLine(a) + CleanLine(b) + CleanLine(c)
  {
    assert [a, b, c][1..] == [b, c] && [b, c][1..] == [c] && [c][1..] == [];
    calc {
      CleanedLines([a, b, c]);
      CleanLine(a) + CleanedLines([b, c]);
      CleanLine(a) + (CleanLine(b) + CleanedLines([c]));
      CleanLine(a) + (CleanLine(b) + (CleanLine(c) + CleanedLines([])));
    }
  }

  /** The client's status banner and the blank line after it are dropped,
      and the speaker line that follows is kept, stripped. */
  lemma BannerAndBlankLinesDropped(status: string, speech: string)
    requires Contains(status, Banner) && '\n' !in status && '\r' !in status
    requires KeepLine(speech) && '\n' !in speech && '\r' !in speech
    ensures FileLines(status + "\n\n" + speech) == [Strip(speech)]
    ensures FileLines(status + "\r\n\r\n" + speech) == [Strip(speech)]
  {
    var text := status + "\n\n" + speech;
    assert '\r' !in text;
    TranslatePlain(text);
    CrLfReadsAsNewline(status, speech);
    SplitAroundBlankLine(status, speech);
    CleanedThree(status, "", speech);
    assert CleanLine("") == [];
    assert CleanLine(status) == [];
  }

  /** A transcript saved with Windows line ends reads as the same lines. */
  lemma CrLfReadsAsNewline(status: string, speech: string)
    requires '\r' !in status && '\r' !in speech
    ensures TranslateNewlines(status + "\r\n\r\n" + speech) == status + "\n\n" + speech
  {
    var inner := "\r\n" + speech;
    calc {
      TranslateNewlines(status + "\r\n\r\n" + speech);
      { assert status + "\r\n\r\n" + speech == status + ("\r\n" + inner); }
      TranslateNewlines(status + ("\r\n" + inner));
      { TranslateAfterPlain(status, "\r\n" + inner); }
      status + TranslateNewlines("\r\n" + inner);
      { LineEndsTranslate(inner); }
      status + ("\n" + TranslateNewlines(inner));
      { LineEndsTranslate(speech); TranslatePlain(speech); }
      status + ("\n" + ("\n" + speech));
    }
    assert status + ("\n" + ("\n" + speech)) == status + "\n\n" + speech;
  }
}

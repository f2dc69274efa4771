/** The vstreamdl module of the application (src/application/vstreamdl.cpp):
    from an HLS master playlist it writes a playlist holding the other
    entries, the audio renditions and one variant stream chosen by picture
    height, and a shell script that fetches the subtitle renditions. */
module VStreamDl {
  import opened Wrappers
  import opened M3uLines
  import opened M3uAttributes
  import opened M3uEntry
  import opened M3uDocument
  import opened M3uHls
  import Util

  const DefaultMaxResHeight: string := "1080"

  /** prj::website, named in the script's first line. */
  const Website: string := "https://github.com/oblaser/m3u-tool"

  /** Why a run stops: a missing argument (raw.at throws), a MAX-RES-HEIGHT
      that is no unsigned integer (EC_ERROR), or a playlist with no audio,
      video or subtitle entry (EC_STREAM_EMPTY). */
  datatype Error = MissingArgument | InvalidMaxResHeight | StreamEmpty

  /** The exit codes of common.h for the two errors the module reports. */
  function ExitCode(e: Error): int
    requires e != MissingArgument
  {
    if e == InvalidMaxResHeight then 1 else 83
  }

  /** What a run produces: the warnings in the order they are printed, the
      playlist text when one is written and the script text when one is
      written. */
  datatype Output = Output(warnings: seq<string>, playlist: Option<string>, script: Option<string>)

  /** The MAX-RES-HEIGHT argument: the fifth raw argument when given. */
  function MaxResHeightArg(raw: seq<string>): string
  {
    if |raw| > 4 then raw[4] else DefaultMaxResHeight
  }

  // ---------------------------------------------------------------------------
  // Choosing the variant stream
  // ---------------------------------------------------------------------------

  function Heights(streams: seq<Stream>): (hs: seq<int>)
    ensures |hs| == |streams|
    ensures forall i :: 0 <= i < |streams| ==> hs[i] == streams[i].height
  {
    seq(|streams|, i requires 0 <= i < |streams| => streams[i].height)
  }

  /** What the selection loop finds. When the first stream is over the cap
      it stays chosen (the loop only moves to a taller stream within the
      cap); otherwise the choice is the first of the tallest streams within
      the cap (the ones before it within the cap are all shorter). */
  predicate IsSelection(hs: seq<int>, maxHeight: int, k: nat)
  {
    k < |hs| &&
    (hs[0] > maxHeight ==> k == 0) &&
    (hs[0] <= maxHeight ==>
      hs[k] <= maxHeight &&
      (forall j :: 0 <= j < |hs| && hs[j] <= maxHeight ==> hs[j] <= hs[k]) &&
      (forall j :: 0 <= j < k && hs[j] <= maxHeight ==> hs[j] < hs[k]))
  }

  /** At most one index fits the description. */
  lemma {:induction false} SelectionUnique(hs: seq<int>, maxHeight: int, a: nat, b: nat)
    requires IsSelection(hs, maxHeight, a) && IsSelection(hs, maxHeight, b)
    ensures a == b
  {
    if hs[0] <= maxHeight {
      assert hs[a] == hs[b];
      assert !(a < b);
      assert !(b < a);
    }
  }

  /** The index the loop ends with, as a function of the heights. */
  function Select(hs: seq<int>, maxHeight: int): (k: nat)
    requires |hs| > 0
    ensures IsSelection(hs, maxHeight, k)
    decreases |hs|
  {
    if |hs| == 1 then 0
    else
      var k := Select(hs[..|hs| - 1], maxHeight);
      SelectStep(hs, maxHeight, k);
      if hs[|hs| - 1] > hs[k] && hs[|hs| - 1] <= maxHeight then |hs| - 1 else k
  }

  /** One turn of the loop keeps the description true for one more height. */
  lemma {:induction false} SelectStep(hs: seq<int>, maxHeight: int, k: nat)
    requires |hs| > 1 && IsSelection(hs[..|hs| - 1], maxHeight, k)
    ensures var n := |hs| - 1;
      IsSelection(hs, maxHeight, if hs[n] > hs[k] && hs[n] <= maxHeight then n else k)
  {
    var front := hs[..|hs| - 1];
    assert forall j :: 0 <= j < |front| ==> front[j] == hs[j];
  }

  /** The loop of lines 179-186: starts at index 0 and moves to a stream
      that is taller than the chosen one and within the cap. */
  method SelectStream(streams: seq<Stream>, maxHeight: int) returns (idx: nat)
    requires |streams| > 0
    ensures IsSelection(Heights(streams), maxHeight, idx)
  {
    ghost var hs := Heights(streams);
    idx := 0;
    for i := 1 to |streams|
      invariant IsSelection(hs[..i], maxHeight, idx)
    {
      assert hs[..i + 1][..i] == hs[..i];
      SelectStep(hs[..i + 1], maxHeight, idx);
      var h := streams[i].height;
      if h > streams[idx].height && h <= maxHeight {
        idx := i;
      }
    }
    assert hs[..|streams|] == hs;
  }

  /** The chosen stream is over the cap exactly when the first one is, which
      is when the resolution warning appears. */
  lemma {:induction false} OverCap(hs: seq<int>, maxHeight: int)
    requires |hs| > 0
    ensures hs[Select(hs, maxHeight)] > maxHeight <==> hs[0] > maxHeight
    ensures hs[0] > maxHeight ==> Select(hs, maxHeight) == 0
  {
  }

  lemma SelectExamples()
    ensures Select([1080, 720, 480], 720) == 0 && [1080, 720, 480][0] > 720
    ensures Select([480, 720, 1080], 720) == 1
    ensures Select([2160], 1080) == 0 && [2160][0] > 1080
  {
    assert IsSelection([480, 720, 1080], 720, 1);
    SelectionUnique([480, 720, 1080], 720, 1, Select([480, 720, 1080], 720));
  }

  // ---------------------------------------------------------------------------
  // The playlist text
  // ---------------------------------------------------------------------------

  /** The other entries, an empty line, the audio renditions, an empty line
      and the chosen stream, each entry followed by LF. */
  function PlaylistText(others: seq<Entry>, audio: seq<Entry>, stream: Entry): string
  {
    SerialiseDoc(others, "\n") + "\n" + SerialiseDoc(audio, "\n") + "\n" + Serialise(stream, "\n") + "\n"
  }

  /** One `txt +=` loop: each entry's text and LF appended. */
  method AppendEntries(txt: string, es: seq<Entry>) returns (r: string)
    ensures r == txt + SerialiseDoc(es, "\n")
  {
    r := txt;
    for i := 0 to |es|
      invariant r == txt + SerialiseDoc(es[..i], "\n")
    {
      SerialiseSnoc(es[..i], es[i], "\n");
      assert es[..i + 1] == es[..i] + [es[i]];
      r := r + Serialise(es[i], "\n") + "\n";
    }
    assert es[..|es|] == es;
  }

  /** The playlist, cut into lines, is the other entries' lines, an empty
      line, the audio lines, an empty line and the stream's lines, provided
      no entry is empty or holds a line terminator. */
  lemma {:induction false} PlaylistLines(others: seq<Entry>, audio: seq<Entry>, stream: Entry)
    requires NoEmptyEntry(others) && Clean(others) && NoEmptyEntry(audio) && Clean(audio)
    requires !M3uEntry.IsEmpty(stream) && NoTerminator(stream.ext) && NoTerminator(stream.data)
    ensures Lines(PlaylistText(others, audio, stream)) ==
      Flat(others) + [""] + Flat(audio) + [""] + EntryLines(stream) + [""]
  {
    var a, b, c := Flat(others), Flat(audio), EntryLines(stream);
    SerialiseFlat(others, "\n");
    SerialiseFlat(audio, "\n");
    SerialiseTerminated(stream, "\n");
    assert Terminated([""], "\n") == "\n" by {
      assert [""][1..] == [];
    }
    var lines := a + [""] + b + [""] + c;
    TerminatedAppend(a + [""] + b + [""], c, "\n");
    TerminatedAppend(a + [""] + b, [""], "\n");
    TerminatedAppend(a + [""], b, "\n");
    TerminatedAppend(a, [""], "\n");
    assert Terminated(lines, "\n") == PlaylistText(others, audio, stream);
    PlaylistClean(others, audio, stream);
    LinesOfTerminated(lines);
  }

  lemma {:induction false} PlaylistClean(others: seq<Entry>, audio: seq<Entry>, stream: Entry)
    requires Clean(others) && Clean(audio) && NoTerminator(stream.ext) && NoTerminator(stream.data)
    ensures var lines := Flat(others) + [""] + Flat(audio) + [""] + EntryLines(stream);
      forall j :: 0 <= j < |lines| ==> NoTerminator(lines[j])
  {
    var a, b, c := Flat(others), Flat(audio), EntryLines(stream);
    FlatClean(others);
    FlatClean(audio);
    assert forall j :: 0 <= j < |c| ==> c[j] == stream.ext || c[j] == stream.data;
    CleanAppend(a, [""]);
    CleanAppend(a + [""], b);
    CleanAppend(a + [""] + b, [""]);
    CleanAppend(a + [""] + b + [""], c);
  }

  // ---------------------------------------------------------------------------
  // The subtitle script
  // ---------------------------------------------------------------------------

  /** ./subs/<name>-<language>[-forced].srt */
  function SubtitleFile(stem: string, s: Subtitles): string
  {
    "./subs/" + stem + "-" + s.language + (if s.forced then "-forced" else "") + ".srt"
  }

  function FfmpegLine(stem: string, s: Subtitles): string
  {
    "ffmpeg -i \"" + s.uri + "\" -scodec srt -loglevel warning \"" + SubtitleFile(stem, s) + "\""
  }

  /** What one subtitle rendition adds to the script: nothing without a URI. */
  function Command(stem: string, s: Subtitles): string
  {
    if s.uri != "" then FfmpegLine(stem, s) + "\n" + "echo $?\n" else ""
  }

  function ScriptHeader(dateTime: string): string
  {
    "# generated by " + Website + "\n# " + dateTime + "\n\nmkdir subs\n\n"
  }

  function Commands(stem: string, subs: seq<Subtitles>): string
    decreases |subs|
  {
    if |subs| == 0 then "" else Commands(stem, subs[..|subs| - 1]) + Command(stem, subs[|subs| - 1])
  }

  function ScriptText(stem: string, dateTime: string, subs: seq<Subtitles>): string
  {
    ScriptHeader(dateTime) + Commands(stem, subs)
  }

  lemma {:induction false} ScriptSnoc(stem: string, dateTime: string, subs: seq<Subtitles>, i: nat)
    requires i < |subs|
    ensures ScriptText(stem, dateTime, subs[..i + 1]) == ScriptText(stem, dateTime, subs[..i]) + Command(stem, subs[i])
  {
    assert subs[..i + 1][..i] == subs[..i];
    AppendAssoc(ScriptHeader(dateTime), Commands(stem, subs[..i]), Command(stem, subs[i]));
  }

  /** The `srtScript +=` loop over the subtitle renditions. */
  method BuildScript(stem: string, dateTime: string, subs: seq<Subtitles>) returns (r: string)
    ensures r == ScriptText(stem, dateTime, subs)
  {
    r := ScriptHeader(dateTime);
    assert r == ScriptText(stem, dateTime, subs[..0]);
    for i := 0 to |subs|
      invariant r == ScriptText(stem, dateTime, subs[..i])
    {
      var st := subs[i];
      ScriptSnoc(stem, dateTime, subs, i);
      if st.uri != "" {
        var line := FfmpegLine(stem, st);
        AppendAssoc(r, line + "\n", "echo $?\n");
        r := r + (line + "\n");
        r := r + "echo $?\n";
      }
    }
    assert subs[..|subs|] == subs;
  }

  /** The script's lines after the header: an ffmpeg line and an echo line
      for each rendition with a URI, in order. */
  function CommandLines(stem: string, subs: seq<Subtitles>): seq<string>
    decreases |subs|
  {
    if |subs| == 0 then []
    else
      var s := subs[|subs| - 1];
      CommandLines(stem, subs[..|subs| - 1]) + (if s.uri != "" then [FfmpegLine(stem, s), "echo $?"] else [])
  }

  function HeaderLines(dateTime: string): seq<string>
  {
    ["# generated by " + Website, "# " + dateTime, "", "mkdir subs", ""]
  }

  lemma {:induction false} HeaderTerminated(dateTime: string)
    ensures ScriptHeader(dateTime) == Terminated(HeaderLines(dateTime), "\n")
  {
    var ls := HeaderLines(dateTime);
    assert ls[1..] == ["# " + dateTime, "", "mkdir subs", ""];
    assert ls[1..][1..] == ["", "mkdir subs", ""];
    assert ls[1..][1..][1..] == ["mkdir subs", ""];
    assert ls[1..][1..][1..][1..] == [""];
    assert ls[1..][1..][1..][1..][1..] == [];
    assert Terminated([""], "\n") == "\n";
    assert Terminated(["mkdir subs", ""], "\n") == "mkdir subs\n\n";
    assert Terminated(["", "mkdir subs", ""], "\n") == "\nmkdir subs\n\n";
  }

  lemma {:induction false} CommandsTerminated(stem: string, subs: seq<Subtitles>)
    ensures Commands(stem, subs) == Terminated(CommandLines(stem, subs), "\n")
    decreases |subs|
  {
    if |subs| > 0 {
      var front, s := subs[..|subs| - 1], subs[|subs| - 1];
      CommandsTerminated(stem, front);
      var tail := if s.uri != "" then [FfmpegLine(stem, s), "echo $?"] else [];
      TerminatedAppend(CommandLines(stem, front), tail, "\n");
      if s.uri != "" {
        TerminatedPair(FfmpegLine(stem, s), "echo $?", "\n");
        assert "echo $?\n" == "echo $?" + "\n";
      }
    }
  }

  lemma {:induction false} HeaderClean(dateTime: string)
    requires NoTerminator(dateTime)
    ensures forall j :: 0 <= j < |HeaderLines(dateTime)| ==> NoTerminator(HeaderLines(dateTime)[j])
  {
    NoTerminatorConcat("# generated by ", Website);
    NoTerminatorConcat("# ", dateTime);
  }

  lemma {:induction false} CleanAppend(a: seq<string>, b: seq<string>)
    requires forall j :: 0 <= j < |a| ==> NoTerminator(a[j])
    requires forall j :: 0 <= j < |b| ==> NoTerminator(b[j])
    ensures forall j :: 0 <= j < |a + b| ==> NoTerminator((a + b)[j])
  {
    assert forall j :: 0 <= j < |a + b| ==> (a + b)[j] == if j < |a| then a[j] else b[j - |a|];
  }

  /** No line of the script holds a terminator when the date, the stem and
      the renditions' fields hold none. */
  lemma {:induction false} CommandLinesClean(stem: string, subs: seq<Subtitles>)
    requires NoTerminator(stem)
    requires forall i :: 0 <= i < |subs| ==> NoTerminator(subs[i].uri) && NoTerminator(subs[i].language)
    ensures forall j :: 0 <= j < |CommandLines(stem, subs)| ==> NoTerminator(CommandLines(stem, subs)[j])
    decreases |subs|
  {
    if |subs| > 0 {
      var front, s := subs[..|subs| - 1], subs[|subs| - 1];
      assert forall i :: 0 <= i < |front| ==> front[i] == subs[i];
      CommandLinesClean(stem, front);
      var a := CommandLines(stem, front);
      var b := if s.uri != "" then [FfmpegLine(stem, s), "echo $?"] else [];
      if s.uri != "" {
        FfmpegClean(stem, s);
      }
      assert forall j :: 0 <= j < |b| ==> NoTerminator(b[j]);
      assert forall j :: 0 <= j < |a + b| ==> (a + b)[j] == if j < |a| then a[j] else b[j - |a|];
    }
  }

  lemma {:induction false} FfmpegClean(stem: string, s: Subtitles)
    requires NoTerminator(stem) && NoTerminator(s.uri) && NoTerminator(s.language)
    ensures NoTerminator(FfmpegLine(stem, s))
  {
    var forced: string := if s.forced then "-forced" else "";
    assert NoTerminator(forced);
    NoTerminatorConcat("./subs/", stem);
    NoTerminatorConcat("./subs/" + stem, "-");
    NoTerminatorConcat("./subs/" + stem + "-", s.language);
    NoTerminatorConcat("./subs/" + stem + "-" + s.language, forced);
    NoTerminatorConcat("./subs/" + stem + "-" + s.language + forced, ".srt");
    var file := SubtitleFile(stem, s);
    NoTerminatorConcat("ffmpeg -i \"", s.uri);
    NoTerminatorConcat("ffmpeg -i \"" + s.uri, "\" -scodec srt -loglevel warning \"");
    NoTerminatorConcat("ffmpeg -i \"" + s.uri + "\" -scodec srt -loglevel warning \"", file);
    NoTerminatorConcat("ffmpeg -i \"" + s.uri + "\" -scodec srt -loglevel warning \"" + file, "\"");
  }

  /** The script, cut into lines: the header's five lines, then two lines
      for each rendition with a URI and none for one without, then the
      empty piece after the last LF. */
  lemma {:induction false} ScriptLines(stem: string, dateTime: string, subs: seq<Subtitles>)
    requires NoTerminator(stem) && NoTerminator(dateTime)
    requires forall i :: 0 <= i < |subs| ==> NoTerminator(subs[i].uri) && NoTerminator(subs[i].language)
    ensures Lines(ScriptText(stem, dateTime, subs)) == HeaderLines(dateTime) + CommandLines(stem, subs) + [""]
  {
    HeaderTerminated(dateTime);
    CommandsTerminated(stem, subs);
    var h, c := HeaderLines(dateTime), CommandLines(stem, subs);
    TerminatedAppend(h, c, "\n");
    CommandLinesClean(stem, subs);
    HeaderClean(dateTime);
    CleanAppend(h, c);
    LinesOfTerminated(h + c);
    assert |ScriptText(stem, dateTime, subs)| > 0;
  }

  // ---------------------------------------------------------------------------
  // The run
  // ---------------------------------------------------------------------------

  /** The warnings about missing groups that come before the playlist. */
  function GroupWarnings(noAudio: bool, noVideo: bool): seq<string>
  {
    (if noAudio && !noVideo then ["no audio"] else []) + (if !noAudio && noVideo then ["no video"] else [])
  }

  /** The variant stream the selection loop picks. */
  function Chosen(streams: seq<Stream>, maxHeight: int): Stream
    requires |streams| > 0
  {
    streams[Select(Heights(streams), maxHeight)]
  }

  /** The warning printed when the chosen stream is over the cap. */
  function ResolutionWarning(chosen: Stream, maxHeight: int): seq<string>
  {
    if chosen.height > maxHeight then ["stream resolution: " + ResolutionParamOf(chosen).value.data] else []
  }

  /** Lines 172-199: the playlist text and the resolution warning. */
  method BuildPlaylist(others: seq<Entry>, audio: seq<Entry>, streams: seq<Stream>, maxResHeight: int)
    returns (txt: string, warnings: seq<string>)
    requires |streams| > 0
    ensures txt == PlaylistText(others, audio, Chosen(streams, maxResHeight).entry)
    ensures warnings == ResolutionWarning(Chosen(streams, maxResHeight), maxResHeight)
  {
    txt := AppendEntries("", others);
    txt := txt + "\n";
    txt := AppendEntries(txt, audio);
    txt := txt + "\n";
    var streamIdx := SelectStream(streams, maxResHeight);
    SelectionUnique(Heights(streams), maxResHeight, streamIdx, Select(Heights(streams), maxResHeight));
    var stream := streams[streamIdx];
    warnings := [];
    if stream.height > maxResHeight {
      var p := ResolutionExtParam(stream);
      warnings := warnings + ["stream resolution: " + p.value.data];
    }
    txt := txt + Serialise(stream.entry, "\n");
    txt := txt + "\n";
  }

  /** vstreamdl after its file system work, on the groups of the playlist. */
  function Job(raw: seq<string>, audio: seq<Entry>, subs: seq<Subtitles>, streams: seq<Stream>,
               others: seq<Entry>, dateTime: string): Result<Output, Error>
  {
    if |raw| < 4 then Failure(MissingArgument)
    else
      var stem, maxText := raw[3], MaxResHeightArg(raw);
      if !IsUInteger(maxText) then Failure(InvalidMaxResHeight)
      else if |audio| == 0 && |streams| == 0 && |subs| == 0 then Failure(StreamEmpty)
      else
        var maxHeight := DecimalValue(maxText);
        var early := GroupWarnings(|audio| == 0, |streams| == 0);
        var script := if |subs| > 0 then Some(ScriptText(stem, dateTime, subs)) else None;
        if |audio| > 0 && |streams| > 0 then
          var chosen := Chosen(streams, maxHeight);
          Success(Output(early + ResolutionWarning(chosen, maxHeight),
                         Some(PlaylistText(others, audio, chosen.entry)), script))
        else Success(Output(early + ["no audio and no video"], None, script))
  }

  /** The run on a classified playlist, step by step as vstreamdl does it. */
  method Run(raw: seq<string>, hls: HLS, dateTime: string) returns (r: Result<Output, Error>)
    ensures r == Job(raw, hls.audioStreams, hls.subtitles, hls.streams, hls.otherEntries, dateTime)
  {
    if |raw| < 4 {
      return Failure(MissingArgument);
    }
    var outName := raw[3];
    var maxResHStr := DefaultMaxResHeight;
    if |raw| > 4 {
      maxResHStr := raw[4];
    }
    if !IsUInteger(maxResHStr) {
      return Failure(InvalidMaxResHeight);
    }
    var maxResHeight := DecimalValue(maxResHStr);
    var noAudio := |hls.audioStreams| == 0;
    var noVideo := |hls.streams| == 0;
    var noSubtitles := |hls.subtitles| == 0;
    if noAudio && noVideo && noSubtitles {
      return Failure(StreamEmpty);
    }
    var warnings: seq<string> := [];
    if noAudio && !noVideo {
      warnings := warnings + ["no audio"];
    }
    if !noAudio && noVideo {
      warnings := warnings + ["no video"];
    }
    assert warnings == GroupWarnings(noAudio, noVideo);
    var playlist: Option<string> := None;
    if !noAudio && !noVideo {
      var txt, late := BuildPlaylist(hls.otherEntries, hls.audioStreams, hls.streams, maxResHeight);
      warnings := warnings + late;
      playlist := Some(txt);
    } else {
      warnings := warnings + ["no audio and no video"];
    }
    var script: Option<string> := None;
    if !noSubtitles {
      var s := BuildScript(outName, dateTime, hls.subtitles);
      script := Some(s);
    }
    r := Success(Output(warnings, playlist, script));
  }

  /** When the run stops, and with which error. */
  lemma {:induction false} JobErrors(raw: seq<string>, audio: seq<Entry>, subs: seq<Subtitles>,
                                     streams: seq<Stream>, others: seq<Entry>, dateTime: string)
    ensures Job(raw, audio, subs, streams, others, dateTime).Failure? <==>
      |raw| < 4 || !IsUInteger(MaxResHeightArg(raw)) || (|audio| == 0 && |streams| == 0 && |subs| == 0)
    ensures |raw| >= 4 && !IsUInteger(MaxResHeightArg(raw)) ==>
      Job(raw, audio, subs, streams, others, dateTime) == Failure(InvalidMaxResHeight)
    ensures |raw| >= 4 && IsUInteger(MaxResHeightArg(raw)) && |audio| == 0 && |streams| == 0 && |subs| == 0 ==>
      Job(raw, audio, subs, streams, others, dateTime) == Failure(StreamEmpty)
  {
  }

  /** A run given its four arguments only stops on an error it reports, and
      exits with EC_ERROR (1) exactly for a MAX-RES-HEIGHT that is no
      unsigned integer, and with EC_STREAM_EMPTY (83) exactly for a playlist
      without audio, video and subtitles. */
  lemma {:induction false} JobExitCode(raw: seq<string>, audio: seq<Entry>, subs: seq<Subtitles>,
                                       streams: seq<Stream>, others: seq<Entry>, dateTime: string)
    ensures var r := Job(raw, audio, subs, streams, others, dateTime);
      |raw| >= 4 && r.Failure? ==>
        r.error != MissingArgument &&
        (ExitCode(r.error) == 1 <==> !IsUInteger(MaxResHeightArg(raw))) &&
        (ExitCode(r.error) == 83 <==>
           IsUInteger(MaxResHeightArg(raw)) && |audio| == 0 && |streams| == 0 && |subs| == 0)
  {
    JobErrors(raw, audio, subs, streams, others, dateTime);
  }

  /** Without a fifth argument the cap is 1080, and a given fifth argument
      is used as it is. */
  lemma {:induction false} DefaultCap(raw: seq<string>)
    ensures |raw| <= 4 ==> IsUInteger(MaxResHeightArg(raw)) && DecimalValue(MaxResHeightArg(raw)) == 1080
    ensures |raw| > 4 ==> MaxResHeightArg(raw) == raw[4]
  {
    if |raw| <= 4 {
      var cap := DefaultMaxResHeight;
      assert cap == ['1', '0', '8', '0'];
      assert IsUInteger(cap);
      ReadBackFour('1', '0', '8', '0', 10, DecimalDigits);
      DigitValues();
      assert DecimalValue(cap) == ((1 * 10 + 0) * 10 + 8) * 10 + 0;
    }
  }

  lemma {:induction false} ReadBackFour(a: char, b: char, c: char, d: char, base: nat, digits: string)
    ensures Util.ReadBack([a, b, c, d], base, digits) ==
      ((Util.IndexOf(digits, a) * base + Util.IndexOf(digits, b)) * base + Util.IndexOf(digits, c)) * base
      + Util.IndexOf(digits, d)
  {
    assert [a, b, c, d][..3] == [a, b, c] && [a, b, c][..2] == [a, b] && [a, b][..1] == [a] && [a][..0] == [];
    assert Util.ReadBack([a], base, digits) == Util.IndexOf(digits, a);
    assert Util.ReadBack([a, b], base, digits) == Util.IndexOf(digits, a) * base + Util.IndexOf(digits, b);
    assert Util.ReadBack([a, b, c], base, digits) == Util.ReadBack([a, b], base, digits) * base + Util.IndexOf(digits, c);
  }

  lemma {:induction false} DigitValues()
    ensures Util.IndexOf(DecimalDigits, '0') == 0
    ensures Util.IndexOf(DecimalDigits, '1') == 1
    ensures Util.IndexOf(DecimalDigits, '8') == 8
  {
    DecimalTable();
    assert DecimalDigits[0] == '0' && DecimalDigits[1] == '1' && DecimalDigits[8] == '8';
  }

  /** Which warnings a successful run prints: "no audio" when only audio is
      missing (followed by "no audio and no video", since the playlist is
      written only when both are there), "no video" when only video is
      missing, and the resolution warning exactly when the first stream is
      over the cap. A playlist is written exactly when both are present, a
      script exactly when there are subtitles. */
  lemma {:induction false} JobWarnings(raw: seq<string>, audio: seq<Entry>, subs: seq<Subtitles>,
                                       streams: seq<Stream>, others: seq<Entry>, dateTime: string)
    requires Job(raw, audio, subs, streams, others, dateTime).Success?
    ensures var out := Job(raw, audio, subs, streams, others, dateTime).value;
      (out.playlist.Some? <==> |audio| > 0 && |streams| > 0) &&
      (out.script.Some? <==> |subs| > 0) &&
      (|audio| == 0 && |streams| > 0 ==> out.warnings == ["no audio", "no audio and no video"]) &&
      (|audio| > 0 && |streams| == 0 ==> out.warnings == ["no video", "no audio and no video"]) &&
      (|audio| == 0 && |streams| == 0 ==> out.warnings == ["no audio and no video"]) &&
      (|audio| > 0 && |streams| > 0 ==>
        (|out.warnings| == 1 <==> streams[0].height > DecimalValue(MaxResHeightArg(raw))) &&
        |out.warnings| <= 1)
  {
    if |audio| > 0 && |streams| > 0 {
      var maxHeight := DecimalValue(MaxResHeightArg(raw));
      var hs := Heights(streams);
      OverCap(hs, maxHeight);
      assert Chosen(streams, maxHeight).height == hs[Select(hs, maxHeight)];
    }
  }
}

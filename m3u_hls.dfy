/** The HTTP Live Streaming view of a playlist (m3u::HLS): the entries
    sorted into audio renditions, subtitle renditions, variant streams and
    everything else, with the fields the subtitle and stream entries derive
    from their attribute lists (sections 4.3.4.1 and 4.3.4.2 of RFC 8216). */
module M3uHls {
  import opened Wrappers
  import opened Util
  import opened M3uLines
  import opened M3uAttributes
  import opened M3uAttributeLists
  import opened M3uEntry
  import opened M3uDocument

  // ---------------------------------------------------------------------------
  // omw::split, assumed to keep empty tokens
  // ---------------------------------------------------------------------------

  /** The pieces of s between the occurrences of c, empty ones included. */
  function Split(s: string, c: char): (ts: seq<string>)
    ensures |ts| >= 1
    ensures forall j, k :: 0 <= j < |ts| && 0 <= k < |ts[j]| ==> ts[j][k] != c
    decreases |s|
  {
    var k := FindFrom(s, c, 0);
    FindFromFirst(s, c, 0);
    if k == |s| then [s] else [s[..k]] + Split(s[k + 1..], c)
  }

  /** The pieces glued back together with c between neighbours. */
  function Join(ts: seq<string>, c: char): string
    requires |ts| >= 1
    decreases |ts|
  {
    if |ts| == 1 then ts[0] else ts[0] + [c] + Join(ts[1..], c)
  }

  /** Gluing the pieces gives the text back. */
  lemma {:induction false} SplitJoin(s: string, c: char)
    ensures Join(Split(s, c), c) == s
    decreases |s|
  {
    var k := FindFrom(s, c, 0);
    var ts := Split(s, c);
    if k < |s| {
      var rest := s[k + 1..];
      assert ts == [s[..k]] + Split(rest, c);
      assert |ts| > 1 && ts[0] == s[..k] && ts[1..] == Split(rest, c);
      SplitJoin(rest, c);
      assert Join(ts, c) == s[..k] + [c] + Join(Split(rest, c), c);
      assert s == s[..k] + [c] + rest;
    } else {
      assert ts == [s];
    }
  }

  /** Pieces free of c, glued and split again, come back unchanged. */
  lemma {:induction false} JoinSplit(ts: seq<string>, c: char)
    requires |ts| >= 1
    requires forall j, k :: 0 <= j < |ts| && 0 <= k < |ts[j]| ==> ts[j][k] != c
    ensures Split(Join(ts, c), c) == ts
    decreases |ts|
  {
    var s := Join(ts, c);
    var t := ts[0];
    if |ts| == 1 {
      FindFromPast(s, c, 0, |s|);
    } else {
      var rest := Join(ts[1..], c);
      assert s == t + [c] + rest;
      assert s[|t|] == c;
      FindFromPast(s, c, 0, |t|);
      assert s[..|t|] == t;
      assert s[|t| + 1..] == rest;
      JoinSplit(ts[1..], c);
    }
  }

  /** FindFrom stops at the first c at or after i. */
  lemma {:induction false} FindFromPast(s: string, c: char, i: nat, k: nat)
    requires i <= k <= |s|
    requires forall j :: i <= j < k ==> s[j] != c
    requires k < |s| ==> s[k] == c
    ensures FindFrom(s, c, i) == k
    decreases k - i
  {
    if i < k {
      FindFromPast(s, c, i + 1, k);
    }
  }

  // ---------------------------------------------------------------------------
  // RESOLUTION values
  // ---------------------------------------------------------------------------

  const DecimalDigits: string := "0123456789"

  /** std::stoi of a string of decimal digits, as a mathematical integer. */
  function DecimalValue(s: string): nat
  {
    ReadBack(s, 10, DecimalDigits)
  }

  /** The height a RESOLUTION value gives Stream::m_parse: exactly two
      pieces around 'x', both unsigned integers; the second is the height. */
  function ResolutionHeight(v: string): Option<int>
  {
    var ts := Split(v, 'x');
    if |ts| == 2 && IsUInteger(ts[0]) && IsUInteger(ts[1]) then Some(DecimalValue(ts[1])) else None
  }

  lemma DecimalTable()
    ensures |DecimalDigits| == 10
    ensures DistinctDigits(DecimalDigits)
    ensures forall c :: c in DecimalDigits ==> IsDigit(c)
  {
  }

  /** A resolution written as two to_string numerals around 'x' reads back
      as the second number. */
  lemma {:induction false} ResolutionOfNumerals(w: nat, h: nat)
    ensures ResolutionHeight(Numeral(w, 10, DecimalDigits) + "x" + Numeral(h, 10, DecimalDigits)) == Some(h)
  {
    var a, b := Numeral(w, 10, DecimalDigits), Numeral(h, 10, DecimalDigits);
    DecimalNumeral(w);
    DecimalNumeral(h);
    var ts := [a, b];
    assert Join(ts, 'x') == a + "x" + b by {
      assert ts[1..] == [b];
    }
    assert forall j, k :: 0 <= j < |ts| && 0 <= k < |ts[j]| ==> ts[j][k] != 'x' by {
      assert ts[0] == a && ts[1] == b;
    }
    JoinSplit(ts, 'x');
  }

  /** A to_string numeral is an unsigned integer without 'x' that reads
      back as its number. */
  lemma {:induction false} DecimalNumeral(n: nat)
    ensures IsUInteger(Numeral(n, 10, DecimalDigits))
    ensures forall k :: 0 <= k < |Numeral(n, 10, DecimalDigits)| ==> Numeral(n, 10, DecimalDigits)[k] != 'x'
    ensures DecimalValue(Numeral(n, 10, DecimalDigits)) == n
  {
    var a := Numeral(n, 10, DecimalDigits);
    DecimalTable();
    NumeralInTable(n, 10, DecimalDigits);
    assert forall k :: 0 <= k < |a| ==> IsDigit(a[k]);
    NumeralReadsBack(n, 10, DecimalDigits);
  }

  /** A value without 'x' gives no height. */
  lemma {:induction false} ResolutionNeedsSeparator(v: string)
    requires forall k :: 0 <= k < |v| ==> v[k] != 'x'
    ensures ResolutionHeight(v) == None
  {
    FindFromPast(v, 'x', 0, |v|);
  }

  /** The fallback value resolutionExtParam makes up. */
  const FallbackResolution: string := "-1x-1"

  /** The fallback is no valid resolution: its pieces carry a sign. */
  lemma FallbackGivesNoHeight()
    ensures ResolutionHeight(FallbackResolution) == None
  {
    var s := FallbackResolution;
    FindFromPast(s, 'x', 0, 2);
    assert s[..2] == "-1";
    assert !IsDigit("-1"[0]);
  }

  // ---------------------------------------------------------------------------
  // The last attribute that sets a field
  // ---------------------------------------------------------------------------

  /** The attribute carries the key and a non-empty value. */
  predicate Sets(p: Param, key: string)
  {
    p.key == key && p.value.data != ""
  }

  /** The index of the last attribute that sets the key. */
  function LastSet(ps: seq<Param>, key: string): (j: Option<nat>)
    ensures j.Some? ==> (j.value < |ps| && Sets(ps[j.value], key) &&
                         forall i :: j.value < i < |ps| ==> !Sets(ps[i], key))
    ensures j.None? ==> forall i :: 0 <= i < |ps| ==> !Sets(ps[i], key)
    decreases |ps|
  {
    if |ps| == 0 then None
    else if Sets(ps[|ps| - 1], key) then Some(|ps| - 1)
    else LastSet(ps[..|ps| - 1], key)
  }

  /** A later attribute overrides every earlier one. */
  lemma {:induction false} LastSetSnoc(ps: seq<Param>, p: Param, key: string)
    ensures LastSet(ps + [p], key) == if Sets(p, key) then Some(|ps|) else LastSet(ps, key)
  {
    assert (ps + [p])[..|ps|] == ps;
  }

  /** The attribute is a RESOLUTION that gives a height. */
  predicate SetsHeight(p: Param)
  {
    Sets(p, "RESOLUTION") && ResolutionHeight(p.value.data).Some?
  }

  /** The index of the last RESOLUTION attribute that gives a height. */
  function LastHeight(ps: seq<Param>): (j: Option<nat>)
    ensures j.Some? ==> (j.value < |ps| && SetsHeight(ps[j.value]) &&
                         forall i :: j.value < i < |ps| ==> !SetsHeight(ps[i]))
    ensures j.None? ==> forall i :: 0 <= i < |ps| ==> !SetsHeight(ps[i])
    decreases |ps|
  {
    if |ps| == 0 then None
    else if SetsHeight(ps[|ps| - 1]) then Some(|ps| - 1)
    else LastHeight(ps[..|ps| - 1])
  }

  lemma {:induction false} LastHeightSnoc(ps: seq<Param>, p: Param)
    ensures LastHeight(ps + [p]) == if SetsHeight(p) then Some(|ps|) else LastHeight(ps)
  {
    assert (ps + [p])[..|ps|] == ps;
  }

  // ---------------------------------------------------------------------------
  // HLS::Subtitles
  // ---------------------------------------------------------------------------

  /** An EXT-X-MEDIA subtitle rendition and the fields it reads. */
  datatype Subtitles = Subtitles(entry: Entry, language: string, forced: bool, uri: string)

  /** The value of the last attribute that sets the key, or the default. */
  function LastValue(ps: seq<Param>, key: string, default: string): string
  {
    match LastSet(ps, key)
    case None => default
    case Some(j) => ps[j].value.data
  }

  /** Whether the last FORCED attribute says "YES", or the default. */
  function ForcedValue(ps: seq<Param>, default: bool): bool
  {
    match LastSet(ps, "FORCED")
    case None => default
    case Some(j) => ps[j].value.data == "YES"
  }

  /** The fields read from ps over the given starting values. */
  function SubtitlesOver(e: Entry, language: string, forced: bool, uri: string): Subtitles
  {
    Subtitles(e, LastValue(e.params, "LANGUAGE", language), ForcedValue(e.params, forced),
      LastValue(e.params, "URI", uri))
  }

  /** The constructor: empty language and URI and not forced unless an
      attribute says otherwise. */
  function SubtitlesOf(e: Entry): Subtitles
  {
    SubtitlesOver(e, "", false, "")
  }

  /** Subtitles::m_parse: each attribute with a non-empty value overwrites
      its field. */
  method ReadSubtitleFields(ps: seq<Param>, language0: string, forced0: bool, uri0: string)
    returns (language: string, forced: bool, uri: string)
    ensures language == LastValue(ps, "LANGUAGE", language0)
    ensures forced == ForcedValue(ps, forced0)
    ensures uri == LastValue(ps, "URI", uri0)
  {
    language, forced, uri := language0, forced0, uri0;
    for i := 0 to |ps|
      invariant language == LastValue(ps[..i], "LANGUAGE", language0)
      invariant forced == ForcedValue(ps[..i], forced0)
      invariant uri == LastValue(ps[..i], "URI", uri0)
    {
      var p := ps[i];
      assert ps[..i + 1] == ps[..i] + [p];
      LastSetSnoc(ps[..i], p, "LANGUAGE");
      LastSetSnoc(ps[..i], p, "FORCED");
      LastSetSnoc(ps[..i], p, "URI");
      if p.value.data != "" {
        if p.key == "LANGUAGE" {
          language := p.value.data;
        } else if p.key == "FORCED" {
          forced := p.value.data == "YES";
        } else if p.key == "URI" {
          uri := p.value.data;
        }
      }
    }
    assert ps[..|ps|] == ps;
  }

  method NewSubtitles(e: Entry) returns (s: Subtitles)
    ensures s == SubtitlesOf(e)
  {
    var language, forced, uri := ReadSubtitleFields(e.params, "", false, "");
    s := Subtitles(e, language, forced, uri);
  }

  /** Subtitles::setExt: re-reads the attributes over the old fields, which
      are not reset first. */
  method SetSubtitlesExt(s: Subtitles, ext: string) returns (r: Subtitles)
    ensures r == SubtitlesOver(Entry(s.entry.data, ext, ExtAttributes(ext, s.entry.params)),
      s.language, s.forced, s.uri)
  {
    var e := SetExt(s.entry, ext);
    var language, forced, uri := ReadSubtitleFields(e.params, s.language, s.forced, s.uri);
    r := Subtitles(e, language, forced, uri);
  }

  /** What the fields mean: each is the value of the last attribute of its
      key with a non-empty value, forced means that value is "YES", and a
      field no attribute sets keeps its default. */
  lemma {:induction false} SubtitleFields(e: Entry)
    ensures SubtitlesOf(e).language != "" ==>
      exists j :: (0 <= j < |e.params| && Sets(e.params[j], "LANGUAGE") &&
                   e.params[j].value.data == SubtitlesOf(e).language &&
                   forall i :: j < i < |e.params| ==> !Sets(e.params[i], "LANGUAGE"))
    ensures (forall i :: 0 <= i < |e.params| ==> !Sets(e.params[i], "LANGUAGE")) ==> SubtitlesOf(e).language == ""
    ensures SubtitlesOf(e).forced <==>
      exists j :: (0 <= j < |e.params| && Sets(e.params[j], "FORCED") &&
                   e.params[j].value.data == "YES" &&
                   forall i :: j < i < |e.params| ==> !Sets(e.params[i], "FORCED"))
    ensures SubtitlesOf(e).uri != "" ==>
      exists j :: (0 <= j < |e.params| && Sets(e.params[j], "URI") &&
                   e.params[j].value.data == SubtitlesOf(e).uri &&
                   forall i :: j < i < |e.params| ==> !Sets(e.params[i], "URI"))
    ensures (forall i :: 0 <= i < |e.params| ==> !Sets(e.params[i], "URI")) ==> SubtitlesOf(e).uri == ""
  {
    var ps := e.params;
    var forced := SubtitlesOf(e).forced;
    if forced {
      var j := LastSet(ps, "FORCED").value;
      assert Sets(ps[j], "FORCED") && ps[j].value.data == "YES";
    } else {
      if LastSet(ps, "FORCED").Some? {
        var j := LastSet(ps, "FORCED").value;
        forall j' | 0 <= j' < |ps| && Sets(ps[j'], "FORCED") && ps[j'].value.data == "YES"
          ensures exists i :: j' < i < |ps| && Sets(ps[i], "FORCED")
        {
          assert j' != j;
          assert j' < j && Sets(ps[j], "FORCED");
        }
      }
    }
    if SubtitlesOf(e).language != "" {
      var j := LastSet(ps, "LANGUAGE").value;
      assert Sets(ps[j], "LANGUAGE");
    }
    if SubtitlesOf(e).uri != "" {
      var j := LastSet(ps, "URI").value;
      assert Sets(ps[j], "URI");
    }
  }

  // ---------------------------------------------------------------------------
  // HLS::Stream
  // ---------------------------------------------------------------------------

  /** An EXT-X-STREAM-INF variant and the picture height it reads (-1 when
      unknown). */
  datatype Stream = Stream(entry: Entry, height: int)

  /** The height of the last RESOLUTION that gives one, or the default. */
  function HeightValue(ps: seq<Param>, default: int): int
  {
    match LastHeight(ps)
    case None => default
    case Some(j) => ResolutionHeight(ps[j].value.data).value
  }

  function StreamOf(e: Entry): Stream
  {
    Stream(e, HeightValue(e.params, -1))
  }

  /** Stream::m_parse: a RESOLUTION that splits into two unsigned integers
      overwrites the height with the second. */
  method ReadHeight(ps: seq<Param>, height0: int) returns (height: int)
    ensures height == HeightValue(ps, height0)
  {
    height := height0;
    for i := 0 to |ps|
      invariant height == HeightValue(ps[..i], height0)
    {
      var p := ps[i];
      assert ps[..i + 1] == ps[..i] + [p];
      LastHeightSnoc(ps[..i], p);
      if p.value.data != "" {
        if p.key == "RESOLUTION" {
          var tokens := Split(p.value.data, 'x');
          if |tokens| == 2 && IsUInteger(tokens[0]) && IsUInteger(tokens[1]) {
            height := DecimalValue(tokens[1]);
          }
        }
      }
    }
    assert ps[..|ps|] == ps;
  }

  method NewStream(e: Entry) returns (s: Stream)
    ensures s == StreamOf(e)
  {
    var height := ReadHeight(e.params, -1);
    s := Stream(e, height);
  }

  /** Stream::setExt: re-reads the attributes; the old height stays unless
      a valid RESOLUTION replaces it. */
  method SetStreamExt(s: Stream, ext: string) returns (r: Stream)
    ensures r.entry == Entry(s.entry.data, ext, ExtAttributes(ext, s.entry.params))
    ensures r.height == HeightValue(r.entry.params, s.height)
  {
    var e := SetExt(s.entry, ext);
    var height := ReadHeight(e.params, s.height);
    r := Stream(e, height);
  }

  /** What the height means: the second number of the last RESOLUTION that
      gives one, or -1 when none does. */
  lemma {:induction false} StreamHeight(e: Entry)
    ensures StreamOf(e).height == -1 <==> forall i :: 0 <= i < |e.params| ==> !SetsHeight(e.params[i])
    ensures StreamOf(e).height != -1 ==>
      exists j :: (0 <= j < |e.params| && SetsHeight(e.params[j]) &&
                   Some(StreamOf(e).height) == ResolutionHeight(e.params[j].value.data) &&
                   forall i :: j < i < |e.params| ==> !SetsHeight(e.params[i]))
  {
    var ps := e.params;
    match LastHeight(ps)
    case None =>
    case Some(j) =>
      assert SetsHeight(ps[j]);
      ResolutionNonNegative(ps[j].value.data);
  }

  /** A height read from a value is never negative. */
  lemma {:induction false} ResolutionNonNegative(v: string)
    ensures ResolutionHeight(v).Some? ==> ResolutionHeight(v).value >= 0
  {
  }

  /** The attribute resolutionExtParam answers with: the first RESOLUTION
      attribute, or ("RESOLUTION", "-1x-1") when there is none. */
  function ResolutionParamOf(s: Stream): (p: Param)
    ensures HasKey(s.entry.params, "RESOLUTION") ==> p == s.entry.params[FirstWithKey(s.entry.params, "RESOLUTION", 0)]
    ensures !HasKey(s.entry.params, "RESOLUTION") ==> p == MakeParam("RESOLUTION", FallbackResolution)
    ensures p.key == "RESOLUTION"
  {
    var j := FirstWithKey(s.entry.params, "RESOLUTION", 0);
    if j < |s.entry.params| then s.entry.params[j] else MakeParam("RESOLUTION", FallbackResolution)
  }

  /** resolutionExtParam: get("RESOLUTION"), falling back when it throws. */
  method ResolutionExtParam(s: Stream) returns (p: Param)
    ensures p == ResolutionParamOf(s)
  {
    var r := Get(s.entry.params, "RESOLUTION");
    match r
    case Success(v) =>
      p := v;
    case Failure(_) =>
      p := MakeParam("RESOLUTION", FallbackResolution);
  }

  // ---------------------------------------------------------------------------
  // HLS::m_parse
  // ---------------------------------------------------------------------------

  datatype Group = AudioGroup | SubtitlesGroup | StreamGroup | OtherGroup

  /** The group HLS::m_parse puts an entry in: a bare EXT-X-MEDIA directive
      by its first TYPE attribute, a EXT-X-STREAM-INF directive with a
      resource among the streams, everything else among the others. */
  function GroupOf(e: Entry): (g: Group)
    ensures g == AudioGroup || g == SubtitlesGroup ==> IsExtension(e) && IsExtType(e.ext, ExtXMediaStr)
    ensures g == StreamGroup ==> IsExtType(e.ext, ExtXStreamInfStr) && e.data != ""
    ensures !HasExtension(e) ==> g == OtherGroup
  {
    if IsExtension(e) then
      if IsExtType(e.ext, ExtXMediaStr) && HasKey(e.params, "TYPE") then
        var t := e.params[FirstWithKey(e.params, "TYPE", 0)].value.data;
        if t == "AUDIO" then AudioGroup
        else if t == "SUBTITLES" then SubtitlesGroup
        else OtherGroup
      else OtherGroup
    else if IsExtType(e.ext, ExtXStreamInfStr) then StreamGroup
    else OtherGroup
  }

  /** A stream is exactly an EXT-X-STREAM-INF directive with a resource line;
      one without goes to the others. */
  lemma {:induction false} StreamGroupIff(e: Entry)
    ensures GroupOf(e) == StreamGroup <==> IsExtType(e.ext, ExtXStreamInfStr) && e.data != ""
    ensures IsExtType(e.ext, ExtXStreamInfStr) && e.data == "" ==> GroupOf(e) == OtherGroup
  {
    if IsExtType(e.ext, ExtXStreamInfStr) && e.data == "" {
      IsExtTypeMonotone(e.ext, ExtXStreamInfStr, ExtStr);
      assert e.ext != "";
      assert !IsExtType(e.ext, ExtXMediaStr) by {
        IsExtTypeIsPrefix(e.ext, ExtXMediaStr);
        IsExtTypeIsPrefix(e.ext, ExtXStreamInfStr);
        assert ExtXMediaStr[7] != ExtXStreamInfStr[7];
      }
    }
    if IsExtType(e.ext, ExtXStreamInfStr) {
      IsExtTypeMonotone(e.ext, ExtXStreamInfStr, ExtStr);
    }
  }

  /** The entries of one group, in playlist order. */
  function Filter(es: seq<Entry>, g: Group): seq<Entry>
    decreases |es|
  {
    if |es| == 0 then []
    else Filter(es[..|es| - 1], g) + (if GroupOf(es[|es| - 1]) == g then [es[|es| - 1]] else [])
  }

  lemma {:induction false} FilterSnoc(es: seq<Entry>, e: Entry, g: Group)
    ensures Filter(es + [e], g) == Filter(es, g) + (if GroupOf(e) == g then [e] else [])
  {
    assert (es + [e])[..|es|] == es;
  }

  /** An entry is in a group's list exactly when it is in the playlist and
      belongs to that group. */
  lemma {:induction false} FilterMembers(es: seq<Entry>, g: Group, e: Entry)
    ensures e in Filter(es, g) <==> e in es && GroupOf(e) == g
    decreases |es|
  {
    if |es| > 0 {
      var front := es[..|es| - 1];
      FilterMembers(front, g, e);
      assert es == front + [es[|es| - 1]];
    }
  }

  /** The four groups partition the playlist: each entry lands in the one
      group GroupOf names (FilterMembers), and the group sizes add up to the
      playlist's, so none is lost or doubled. */
  lemma {:induction false} Partition(es: seq<Entry>)
    ensures |Filter(es, AudioGroup)| + |Filter(es, SubtitlesGroup)| +
      |Filter(es, StreamGroup)| + |Filter(es, OtherGroup)| == |es|
    decreases |es|
  {
    if |es| > 0 {
      var front, e := es[..|es| - 1], es[|es| - 1];
      assert es == front + [e];
      Partition(front);
      FilterSnoc(front, e, AudioGroup);
      FilterSnoc(front, e, SubtitlesGroup);
      FilterSnoc(front, e, StreamGroup);
      FilterSnoc(front, e, OtherGroup);
    }
  }

  /** The subtitle renditions built from their entries, in order. */
  function SubtitlesFor(es: seq<Entry>): (r: seq<Subtitles>)
    ensures |r| == |es|
    ensures forall j :: 0 <= j < |es| ==> r[j] == SubtitlesOf(es[j])
  {
    seq(|es|, j requires 0 <= j < |es| => SubtitlesOf(es[j]))
  }

  /** The variant streams built from their entries, in order. */
  function StreamsFor(es: seq<Entry>): (r: seq<Stream>)
    ensures |r| == |es|
    ensures forall j :: 0 <= j < |es| ==> r[j] == StreamOf(es[j])
  {
    seq(|es|, j requires 0 <= j < |es| => StreamOf(es[j]))
  }

  /** The tests of one turn of HLS::m_parse: a bare directive that is
      EXT-X-MEDIA with a TYPE goes by its first TYPE value, a
      EXT-X-STREAM-INF directive with a resource is a stream, anything else
      is among the others. */
  method Route(e: Entry) returns (g: Group)
    ensures g == GroupOf(e)
  {
    if e.ext != "" && e.data == "" {
      var media := IsExtType(e.ext, ExtXMediaStr);
      var hasType := false;
      if media {
        hasType := Contains(e.params, "TYPE");
      }
      if media && hasType {
        var t := Get(e.params, "TYPE");
        var kind := t.value.value.data;
        if kind == "AUDIO" {
          g := AudioGroup;
        } else if kind == "SUBTITLES" {
          g := SubtitlesGroup;
        } else {
          g := OtherGroup;
        }
      } else {
        g := OtherGroup;
      }
    } else if IsExtType(e.ext, ExtXStreamInfStr) {
      g := StreamGroup;
    } else {
      g := OtherGroup;
    }
  }

  /** m3u::HLS: a playlist and its entries sorted into four groups. The
      playlist itself is kept whole for serialisation. */
  class HLS {
    var doc: M3U
    var audioStreams: seq<Entry>
    var subtitles: seq<Subtitles>
    var streams: seq<Stream>
    var otherEntries: seq<Entry>

    /** The groups are those of the playlist's entries. */
    ghost predicate Classified()
      reads this, doc
    {
      audioStreams == Filter(doc.entries, AudioGroup) &&
      subtitles == SubtitlesFor(Filter(doc.entries, SubtitlesGroup)) &&
      streams == StreamsFor(Filter(doc.entries, StreamGroup)) &&
      otherEntries == Filter(doc.entries, OtherGroup)
    }

    constructor ()
      ensures fresh(doc) && doc.entries == [] && Classified()
    {
      doc := new M3U();
      audioStreams, subtitles, streams, otherEntries := [], [], [], [];
    }

    /** HLS(txt): the text parsed as a playlist, then sorted. */
    constructor FromText(txt: string)
      ensures fresh(doc) && doc.entries == ParseText(txt) && Classified()
    {
      doc := new M3U.FromText(txt);
      audioStreams, subtitles, streams, otherEntries := [], [], [], [];
      new;
      Classify();
    }

    /** HLS(m3u): a copy of the playlist, sorted. */
    constructor FromM3U(m: M3U)
      ensures fresh(doc) && doc.entries == m.entries && Classified()
    {
      doc := new M3U.Copy(m.entries);
      audioStreams, subtitles, streams, otherEntries := [], [], [], [];
      new;
      Classify();
    }

    /** m_parse: one pass over the entries, appending each to its group. */
    method Classify()
      modifies this
      ensures doc == old(doc) && Classified()
    {
      var es := doc.entries;
      audioStreams, subtitles, streams, otherEntries := [], [], [], [];
      assert es[..0] == [];
      for i := 0 to |es|
        invariant doc == old(doc) && doc.entries == es
        invariant audioStreams == Filter(es[..i], AudioGroup)
        invariant subtitles == SubtitlesFor(Filter(es[..i], SubtitlesGroup))
        invariant streams == StreamsFor(Filter(es[..i], StreamGroup))
        invariant otherEntries == Filter(es[..i], OtherGroup)
      {
        assert es[..i + 1] == es[..i] + [es[i]];
        Place(es[..i], es[i]);
      }
      assert es[..|es|] == es;
    }

    /** One turn of m_parse: appends the entry to the group it belongs to. */
    method Place(before: seq<Entry>, e: Entry)
      requires audioStreams == Filter(before, AudioGroup)
      requires subtitles == SubtitlesFor(Filter(before, SubtitlesGroup))
      requires streams == StreamsFor(Filter(before, StreamGroup))
      requires otherEntries == Filter(before, OtherGroup)
      modifies this
      ensures doc == old(doc)
      ensures audioStreams == Filter(before + [e], AudioGroup)
      ensures subtitles == SubtitlesFor(Filter(before + [e], SubtitlesGroup))
      ensures streams == StreamsFor(Filter(before + [e], StreamGroup))
      ensures otherEntries == Filter(before + [e], OtherGroup)
    {
      FilterSnoc(before, e, AudioGroup);
      FilterSnoc(before, e, SubtitlesGroup);
      FilterSnoc(before, e, StreamGroup);
      FilterSnoc(before, e, OtherGroup);
      var g := Route(e);
      match g
      case AudioGroup =>
        audioStreams := audioStreams + [e];
      case SubtitlesGroup =>
        var s := NewSubtitles(e);
        SubtitlesForSnoc(Filter(before, SubtitlesGroup), e);
        subtitles := subtitles + [s];
      case StreamGroup =>
        var s := NewStream(e);
        StreamsForSnoc(Filter(before, StreamGroup), e);
        streams := streams + [s];
      case OtherGroup =>
        otherEntries := otherEntries + [e];
    }

    /** serialise: the whole playlist, whatever the groups hold. */
    method Serialise(eol: string) returns (r: string)
      ensures r == SerialiseDoc(doc.entries, eol)
    {
      r := doc.Serialise(eol);
    }
  }

  /** A built rendition appended to the list built from the entries
      before it. */
  lemma {:induction false} SubtitlesForSnoc(es: seq<Entry>, e: Entry)
    ensures SubtitlesFor(es + [e]) == SubtitlesFor(es) + [SubtitlesOf(e)]
  {
  }

  lemma {:induction false} StreamsForSnoc(es: seq<Entry>, e: Entry)
    ensures StreamsFor(es + [e]) == StreamsFor(es) + [StreamOf(e)]
  {
  }
}

/** A whole playlist (m3u::M3U in src/middleware/m3u.h): the text cut into
    lines, the lines grouped into entries, and the entries written back. */
module M3uDocument {
  import opened Wrappers
  import opened M3uLines
  import opened M3uAttributes
  import opened M3uEntry

  // ---------------------------------------------------------------------------
  // Grouping lines into entries (M3U::m_parse)
  // ---------------------------------------------------------------------------

  /** A directive that takes the line after it as its resource. */
  predicate PairsWithNext(line: string)
  {
    IsExtType(line, ExtInfStr) || IsExtType(line, ExtXStreamInfStr)
  }

  /** The header entry of an extended playlist. */
  function Header(): Entry
  {
    EntryOf("", ExtM3uStr)
  }

  /** The entries of the lines after the header of an extended playlist:
      empty lines are skipped; an EXTINF or EXT-X-STREAM-INF directive takes
      the next line, whatever it holds, as its resource (and stands alone
      on the last line); any other "#EXT" line is a bare directive; anything
      else is a resource. */
  function ExtendedEntries(lines: seq<string>): seq<Entry>
    decreases |lines|
  {
    if |lines| == 0 then []
    else if lines[0] == "" then ExtendedEntries(lines[1..])
    else if PairsWithNext(lines[0]) then
      if |lines| > 1 then [EntryOf(lines[1], lines[0])] + ExtendedEntries(lines[2..])
      else [EntryOf("", lines[0])]
    else if IsExtType(lines[0], ExtStr) then [EntryOf("", lines[0])] + ExtendedEntries(lines[1..])
    else [EntryOf(lines[0], "")] + ExtendedEntries(lines[1..])
  }

  /** The entries of a plain playlist: one resource per non-empty line. */
  function PlainEntries(lines: seq<string>): seq<Entry>
    decreases |lines|
  {
    if |lines| == 0 then []
    else if lines[0] == "" then PlainEntries(lines[1..])
    else [EntryOf(lines[0], "")] + PlainEntries(lines[1..])
  }

  /** Extended grouping when the first line is exactly the header, plain
      grouping otherwise. */
  function Collect(lines: seq<string>): seq<Entry>
  {
    if |lines| == 0 then []
    else if lines[0] == ExtM3uStr then [EntryOf("", lines[0])] + ExtendedEntries(lines[1..])
    else PlainEntries(lines)
  }

  /** m_parse, with its final check read as intended: the last entry is
      dropped when it is empty, and nothing happens when there is none. */
  function ParseText(txt: string): seq<Entry>
  {
    var es := Collect(Lines(txt));
    if |es| > 0 && M3uEntry.IsEmpty(es[|es| - 1]) then es[..|es| - 1] else es
  }

  /** m_parse as written: m_entries.back() is called whenever there was a
      line, which is undefined when no entry was made (None). */
  function ParseTextAsWritten(txt: string): Option<seq<Entry>>
  {
    var lines := Lines(txt);
    var es := Collect(lines);
    if |lines| == 0 then Some(es)
    else if |es| == 0 then None
    else if M3uEntry.IsEmpty(es[|es| - 1]) then Some(es[..|es| - 1])
    else Some(es)
  }

  predicate NoEmptyEntry(es: seq<Entry>)
  {
    forall j :: 0 <= j < |es| ==> !M3uEntry.IsEmpty(es[j])
  }

  lemma {:induction false} NoEmptyAppend(a: seq<Entry>, b: seq<Entry>)
    requires NoEmptyEntry(a) && NoEmptyEntry(b)
    ensures NoEmptyEntry(a + b)
  {
    assert forall j :: 0 <= j < |a + b| ==> (a + b)[j] == if j < |a| then a[j] else b[j - |a|];
  }

  lemma {:induction false} ExtendedNoEmpty(lines: seq<string>)
    ensures NoEmptyEntry(ExtendedEntries(lines))
    decreases |lines|
  {
    if |lines| > 0 {
      var x := lines[0];
      if x == "" {
        ExtendedNoEmpty(lines[1..]);
      } else if PairsWithNext(x) {
        if |lines| > 1 {
          ExtendedNoEmpty(lines[2..]);
          NoEmptyAppend([EntryOf(lines[1], x)], ExtendedEntries(lines[2..]));
        }
      } else {
        ExtendedNoEmpty(lines[1..]);
        var e := if IsExtType(x, ExtStr) then EntryOf("", x) else EntryOf(x, "");
        NoEmptyAppend([e], ExtendedEntries(lines[1..]));
      }
    }
  }

  lemma {:induction false} PlainNoEmpty(lines: seq<string>)
    ensures NoEmptyEntry(PlainEntries(lines))
    decreases |lines|
  {
    if |lines| > 0 {
      PlainNoEmpty(lines[1..]);
      if lines[0] != "" {
        NoEmptyAppend([EntryOf(lines[0], "")], PlainEntries(lines[1..]));
      }
    }
  }

  /** Every entry m_parse makes is non-empty, so its final pop_back never
      removes anything. */
  lemma {:induction false} CollectNoEmpty(lines: seq<string>)
    ensures NoEmptyEntry(Collect(lines))
  {
    if |lines| > 0 {
      if lines[0] == ExtM3uStr {
        ExtendedNoEmpty(lines[1..]);
        NoEmptyAppend([EntryOf("", lines[0])], ExtendedEntries(lines[1..]));
      } else {
        PlainNoEmpty(lines);
      }
    }
  }

  /** The entries of a text are exactly the grouped lines. */
  lemma {:induction false} ParseTextIsCollect(txt: string)
    ensures ParseText(txt) == Collect(Lines(txt))
    ensures NoEmptyEntry(ParseText(txt))
  {
    CollectNoEmpty(Lines(txt));
  }

  /** Plain grouping makes nothing exactly when every line is empty. */
  lemma {:induction false} PlainNothing(lines: seq<string>)
    ensures PlainEntries(lines) == [] <==> forall j :: 0 <= j < |lines| ==> lines[j] == ""
    decreases |lines|
  {
    if |lines| > 0 {
      PlainNothing(lines[1..]);
      assert forall j :: 1 <= j < |lines| ==> lines[j] == lines[1..][j - 1];
    }
  }

  /** The written m_parse is undefined exactly for a non-empty text whose
      lines are all empty (a text of line terminators only); elsewhere it
      agrees with ParseText. */
  lemma {:induction false} ParseAsWrittenDefined(txt: string)
    ensures ParseTextAsWritten(txt).None? <==>
      |Lines(txt)| > 0 && forall j :: 0 <= j < |Lines(txt)| ==> Lines(txt)[j] == ""
    ensures ParseTextAsWritten(txt).Some? ==> ParseTextAsWritten(txt).value == ParseText(txt)
  {
    var lines := Lines(txt);
    CollectNoEmpty(lines);
    if |lines| > 0 {
      if lines[0] == ExtM3uStr {
        assert lines[0] != "";
      } else {
        PlainNothing(lines);
      }
    }
  }

  /** A single line feed has two empty lines and no entry: the written
      m_parse calls back() on an empty vector. */
  lemma BlankLineUndefined()
    ensures Lines("\n") == ["", ""]
    ensures ParseTextAsWritten("\n") == None
    ensures ParseText("\n") == []
  {
    PiecesLineLF("", "");
    assert "" + "\n" + "" == "\n";
    PiecesEnd("");
    assert PlainEntries(["", ""][1..][1..]) == [];
  }

  // ---------------------------------------------------------------------------
  // Writing entries back (M3U::serialize)
  // ---------------------------------------------------------------------------

  /** Each entry serialised and followed by the end-of-line text. */
  function SerialiseDoc(es: seq<Entry>, eol: string): string
    decreases |es|
  {
    if |es| == 0 then "" else Serialise(es[0], eol) + eol + SerialiseDoc(es[1..], eol)
  }

  /** Appending an entry appends its text. */
  lemma {:induction false} SerialiseSnoc(es: seq<Entry>, e: Entry, eol: string)
    ensures SerialiseDoc(es + [e], eol) == SerialiseDoc(es, eol) + Serialise(e, eol) + eol
    decreases |es|
  {
    if |es| == 0 {
      assert es + [e] == [e];
      assert [e][1..] == [];
    } else {
      var head := Serialise(es[0], eol) + eol;
      var tail := SerialiseDoc(es[1..], eol);
      var last := Serialise(e, eol) + eol;
      assert (es + [e])[0] == es[0];
      assert (es + [e])[1..] == es[1..] + [e];
      SerialiseSnoc(es[1..], e, eol);
      AppendAssoc(tail, Serialise(e, eol), eol);
      assert SerialiseDoc(es + [e], eol) == head + (tail + last);
      AppendAssoc(head, tail, last);
      AppendAssoc(head + tail, Serialise(e, eol), eol);
    }
  }

  /** The lines the entries occupy, in order. */
  function Flat(es: seq<Entry>): seq<string>
    decreases |es|
  {
    if |es| == 0 then [] else EntryLines(es[0]) + Flat(es[1..])
  }

  lemma {:induction false} TerminatedAppend(a: seq<string>, b: seq<string>, eol: string)
    ensures Terminated(a + b, eol) == Terminated(a, eol) + Terminated(b, eol)
    decreases |a|
  {
    if |a| == 0 {
      assert a + b == b;
    } else {
      assert (a + b)[1..] == a[1..] + b;
      TerminatedAppend(a[1..], b, eol);
    }
  }

  /** Serialised non-empty entries are their lines, each terminated. */
  lemma {:induction false} SerialiseFlat(es: seq<Entry>, eol: string)
    requires NoEmptyEntry(es)
    ensures SerialiseDoc(es, eol) == Terminated(Flat(es), eol)
    decreases |es|
  {
    if |es| > 0 {
      SerialiseFlat(es[1..], eol);
      SerialiseTerminated(es[0], eol);
      TerminatedAppend(EntryLines(es[0]), Flat(es[1..]), eol);
    }
  }

  /** Entries whose parts hold no line terminator occupy clean lines. */
  lemma {:induction false} FlatClean(es: seq<Entry>)
    requires forall j :: 0 <= j < |es| ==> NoTerminator(es[j].ext) && NoTerminator(es[j].data)
    ensures forall j :: 0 <= j < |Flat(es)| ==> NoTerminator(Flat(es)[j])
    decreases |es|
  {
    if |es| > 0 {
      FlatClean(es[1..]);
      var a, b := EntryLines(es[0]), Flat(es[1..]);
      assert forall j :: 0 <= j < |a| ==> a[j] == es[0].ext || a[j] == es[0].data;
      assert forall j :: 0 <= j < |a + b| ==> (a + b)[j] == if j < |a| then a[j] else b[j - |a|];
    }
  }

  // ---------------------------------------------------------------------------
  // Round trips
  // ---------------------------------------------------------------------------

  /** An entry as the parser would build it from its own parts. */
  predicate Fresh(e: Entry)
  {
    e == EntryOf(e.data, e.ext)
  }

  /** An entry after the header that reads back as itself: non-empty, free of
      line terminators, built from its parts; a directive with a resource is
      an EXTINF or EXT-X-STREAM-INF one; a bare directive starts with "#EXT"
      and, if it would take the next line, is the last entry; a resource
      without a directive does not start with "#EXT". */
  predicate BodyEntry(e: Entry, last: bool)
  {
    Fresh(e) && !M3uEntry.IsEmpty(e) && NoTerminator(e.ext) && NoTerminator(e.data) &&
    (e.ext != "" && e.data != "" ==> PairsWithNext(e.ext)) &&
    (e.ext != "" && e.data == "" ==> IsExtType(e.ext, ExtStr) && (PairsWithNext(e.ext) ==> last)) &&
    (e.ext == "" ==> !IsExtType(e.data, ExtStr))
  }

  predicate Body(es: seq<Entry>)
  {
    forall j :: 0 <= j < |es| ==> BodyEntry(es[j], j == |es| - 1)
  }

  /** An extended playlist that reads back as itself: the header, then body
      entries. */
  predicate WellFormedExtended(es: seq<Entry>)
  {
    |es| >= 1 && es[0] == Header() && Body(es[1..])
  }

  lemma {:induction false} BodyTail(es: seq<Entry>)
    requires |es| > 0 && Body(es)
    ensures Body(es[1..]) && BodyEntry(es[0], |es| == 1)
  {
    assert forall j :: 0 <= j < |es[1..]| ==> es[1..][j] == es[j + 1];
  }

  /** The lines of body entries, with the final empty line, group back into
      the same entries. */
  lemma {:induction false} ExtendedRoundTrip(es: seq<Entry>)
    requires Body(es)
    ensures ExtendedEntries(Flat(es) + [""]) == es
    decreases |es|
  {
    if |es| == 0 {
      assert Flat(es) + [""] == [""];
      assert [""][1..] == [];
    } else {
      var e, rest := es[0], es[1..];
      BodyTail(es);
      ExtendedRoundTrip(rest);
      var tail := Flat(rest) + [""];
      assert Flat(es) + [""] == EntryLines(e) + tail;
      if |es| == 1 {
        assert rest == [] && tail == [""];
      }
      ExtendedCons(e, tail, |es| == 1);
    }
  }

  /** One body entry's lines in front of the rest group into that entry in
      front of the rest's entries. */
  lemma {:induction false} ExtendedCons(e: Entry, tail: seq<string>, last: bool)
    requires BodyEntry(e, last) && |tail| > 0 && (last ==> tail == [""])
    ensures ExtendedEntries(EntryLines(e) + tail) == [e] + ExtendedEntries(tail)
  {
    var lines := EntryLines(e) + tail;
    if e.ext != "" && e.data != "" {
      assert lines == [e.ext, e.data] + tail;
      assert lines[2..] == tail;
      ExtendedFirstPair(lines, e);
    } else if e.ext != "" {
      assert lines == [e.ext] + tail;
      assert lines[1..] == tail;
      if PairsWithNext(e.ext) {
        assert lines == [e.ext, ""] && lines[2..] == [];
        assert ExtendedEntries(tail) == ExtendedEntries(tail[1..]);
        assert tail[1..] == [];
        ExtendedFirstPair(lines, e);
      } else {
        ExtendedFirstDirective(lines, e);
      }
    } else {
      assert lines == [e.data] + tail;
      assert lines[1..] == tail;
      assert !PairsWithNext(e.data) by {
        if IsExtType(e.data, ExtInfStr) {
          IsExtTypeMonotone(e.data, ExtInfStr, ExtStr);
        }
        if IsExtType(e.data, ExtXStreamInfStr) {
          IsExtTypeMonotone(e.data, ExtXStreamInfStr, ExtStr);
        }
      }
      ExtendedFirstResource(lines, e);
    }
  }

  lemma {:induction false} ExtendedFirstPair(lines: seq<string>, e: Entry)
    requires |lines| >= 2 && lines[0] == e.ext && lines[1] == e.data && Fresh(e)
    requires e.ext != "" && PairsWithNext(e.ext)
    ensures ExtendedEntries(lines) == [e] + ExtendedEntries(lines[2..])
  {
  }

  lemma {:induction false} ExtendedFirstDirective(lines: seq<string>, e: Entry)
    requires |lines| >= 1 && lines[0] == e.ext && e.data == "" && Fresh(e)
    requires e.ext != "" && !PairsWithNext(e.ext) && IsExtType(e.ext, ExtStr)
    ensures ExtendedEntries(lines) == [e] + ExtendedEntries(lines[1..])
  {
  }

  lemma {:induction false} ExtendedFirstResource(lines: seq<string>, e: Entry)
    requires |lines| >= 1 && lines[0] == e.data && e.ext == "" && Fresh(e)
    requires e.data != "" && !PairsWithNext(e.data) && !IsExtType(e.data, ExtStr)
    ensures ExtendedEntries(lines) == [e] + ExtendedEntries(lines[1..])
  {
  }

  predicate Clean(es: seq<Entry>)
  {
    forall j :: 0 <= j < |es| ==> NoTerminator(es[j].ext) && NoTerminator(es[j].data)
  }

  /** The text of non-empty entries without line terminators, cut into
      lines, is their lines and a final empty one. */
  lemma {:induction false} SerialisedLines(es: seq<Entry>)
    requires |es| > 0 && NoEmptyEntry(es) && Clean(es)
    ensures Lines(SerialiseDoc(es, "\n")) == Flat(es) + [""]
  {
    SerialiseFlat(es, "\n");
    FlatClean(es);
    LinesOfTerminated(Flat(es));
    var txt := SerialiseDoc(es, "\n");
    assert |txt| > 0 by {
      assert txt == Serialise(es[0], "\n") + "\n" + SerialiseDoc(es[1..], "\n");
    }
  }

  /** A well-formed extended playlist's entries are non-empty and clean. */
  lemma {:induction false} WellFormedClean(es: seq<Entry>)
    requires WellFormedExtended(es)
    ensures NoEmptyEntry(es) && Clean(es)
  {
    var body := es[1..];
    forall j | 0 <= j < |es|
      ensures !M3uEntry.IsEmpty(es[j]) && NoTerminator(es[j].ext) && NoTerminator(es[j].data)
    {
      if j > 0 {
        assert es[j] == body[j - 1];
        assert BodyEntry(body[j - 1], j - 1 == |body| - 1);
      } else {
        assert es[0].ext == ExtM3uStr && es[0].data == "";
      }
    }
  }

  /** Serialising a well-formed extended playlist with LF and parsing the
      text gives the same entries back. */
  lemma {:induction false} RoundTrip(es: seq<Entry>)
    requires WellFormedExtended(es)
    ensures ParseText(SerialiseDoc(es, "\n")) == es
  {
    WellFormedClean(es);
    SerialisedLines(es);
    var txt := SerialiseDoc(es, "\n");
    var body := es[1..];
    var lines := Flat(es) + [""];
    assert Flat(es) == [ExtM3uStr] + Flat(body);
    assert lines[0] == ExtM3uStr;
    assert lines[1..] == Flat(body) + [""];
    ExtendedRoundTrip(body);
    ParseTextIsCollect(txt);
    assert Collect(lines) == [EntryOf("", ExtM3uStr)] + body;
    assert es == [es[0]] + body;
  }

  /** A plain playlist that reads back as itself: resources only, none empty
      or holding a line terminator, the first not the header. */
  predicate WellFormedPlain(es: seq<Entry>)
  {
    (|es| > 0 ==> es[0].data != ExtM3uStr) &&
    forall j :: 0 <= j < |es| ==>
      es[j] == EntryOf(es[j].data, "") && es[j].data != "" && NoTerminator(es[j].data)
  }

  lemma {:induction false} PlainRoundTripLines(es: seq<Entry>)
    requires forall j :: 0 <= j < |es| ==> es[j] == EntryOf(es[j].data, "") && es[j].data != ""
    ensures PlainEntries(Flat(es) + [""]) == es
    decreases |es|
  {
    if |es| == 0 {
      assert Flat(es) + [""] == [""];
      assert [""][1..] == [];
    } else {
      var rest := es[1..];
      assert forall j :: 0 <= j < |rest| ==> rest[j] == es[j + 1];
      PlainRoundTripLines(rest);
      var lines := Flat(es) + [""];
      assert EntryLines(es[0]) == [es[0].data];
      assert lines == [es[0].data] + (Flat(rest) + [""]);
      assert lines[1..] == Flat(rest) + [""];
    }
  }

  /** Serialising a well-formed plain playlist with LF and parsing the text
      gives the same entries back. */
  lemma {:induction false} PlainRoundTrip(es: seq<Entry>)
    requires WellFormedPlain(es)
    ensures ParseText(SerialiseDoc(es, "\n")) == es
  {
    var txt := SerialiseDoc(es, "\n");
    if |es| == 0 {
      assert txt == "";
    } else {
      assert NoEmptyEntry(es) && Clean(es);
      SerialisedLines(es);
      var lines := Flat(es) + [""];
      assert Flat(es) == [es[0].data] + Flat(es[1..]);
      assert lines[0] == es[0].data;
      PlainRoundTripLines(es);
      ParseTextIsCollect(txt);
    }
  }

  /** Not every list of entries reads back: a bare EXTINF directive that is
      not the last entry takes the following resource line as its own. */
  lemma {:induction false} DanglingDirectiveAbsorbsNext(x: string, d: string)
    requires PairsWithNext(x) && NoTerminator(x) && NoTerminator(d) && d != ""
    ensures ParseText(SerialiseDoc([Header(), EntryOf("", x), EntryOf(d, "")], "\n")) ==
      [Header(), EntryOf(d, x)]
  {
    var txt := SerialiseDoc([Header(), EntryOf("", x), EntryOf(d, "")], "\n");
    DanglingLines(x, d);
    DanglingGroups(x, d);
    ParseTextIsCollect(txt);
  }

  lemma {:induction false} DanglingLines(x: string, d: string)
    requires PairsWithNext(x) && NoTerminator(x) && NoTerminator(d) && d != ""
    ensures Lines(SerialiseDoc([Header(), EntryOf("", x), EntryOf(d, "")], "\n")) == [ExtM3uStr, x, d, ""]
  {
    var h, a, b := Header(), EntryOf("", x), EntryOf(d, "");
    assert x != "";
    assert EntryLines(h) == [ExtM3uStr] && EntryLines(a) == [x] && EntryLines(b) == [d];
    FlatThree(h, a, b);
    assert NoTerminator(h.ext) && NoTerminator(h.data);
    ThreeClean(h, a, b);
    SerialisedLines([h, a, b]);
  }

  lemma {:induction false} DanglingGroups(x: string, d: string)
    requires PairsWithNext(x) && d != ""
    ensures Collect([ExtM3uStr, x, d, ""]) == [Header(), EntryOf(d, x)]
  {
    var lines := [ExtM3uStr, x, d, ""];
    var after := lines[1..];
    assert after == [x, d, ""];
    assert after[2..] == [""];
    ExtendedFirstPair(after, EntryOf(d, x));
    assert ExtendedEntries([""]) == [] by {
      assert [""][1..] == [];
    }
  }

  lemma {:induction false} ThreeClean(a: Entry, b: Entry, c: Entry)
    requires !M3uEntry.IsEmpty(a) && !M3uEntry.IsEmpty(b) && !M3uEntry.IsEmpty(c)
    requires NoTerminator(a.ext) && NoTerminator(a.data) && NoTerminator(b.ext)
    requires NoTerminator(b.data) && NoTerminator(c.ext) && NoTerminator(c.data)
    ensures NoEmptyEntry([a, b, c]) && Clean([a, b, c])
  {
  }

  lemma {:induction false} FlatThree(a: Entry, b: Entry, c: Entry)
    ensures Flat([a, b, c]) == EntryLines(a) + EntryLines(b) + EntryLines(c)
  {
    assert [a, b, c][1..] == [b, c] && [b, c][1..] == [c] && [c][1..] == [];
    assert Flat([c]) == EntryLines(c) + [];
    assert Flat([b, c]) == EntryLines(b) + Flat([c]);
  }

  /** A parsed playlist is extended exactly when its first line is the
      header. */
  lemma {:induction false} ExtendedIffHeader(txt: string)
    ensures (|ParseText(txt)| > 0 && Same(ParseText(txt)[0], Header())) <==>
      (|Lines(txt)| > 0 && Lines(txt)[0] == ExtM3uStr)
  {
    ParseTextIsCollect(txt);
    var lines := Lines(txt);
    if |lines| > 0 && lines[0] != ExtM3uStr {
      PlainFirst(lines);
    }
  }

  /** A plain grouping's first entry, if any, has no directive. */
  lemma {:induction false} PlainFirst(lines: seq<string>)
    ensures |PlainEntries(lines)| > 0 ==> PlainEntries(lines)[0].ext == ""
    decreases |lines|
  {
    if |lines| > 0 && lines[0] == "" {
      PlainFirst(lines[1..]);
    }
  }

  // ---------------------------------------------------------------------------
  // The playlist object
  // ---------------------------------------------------------------------------

  /** m3u::M3U: the entries of a playlist, in order. */
  class M3U {
    var entries: seq<Entry>

    /** The empty playlist. */
    constructor ()
      ensures entries == []
    {
      entries := [];
    }

    /** The copy constructor: the same entries. */
    constructor Copy(es: seq<Entry>)
      ensures entries == es
    {
      entries := es;
    }

    /** M3U(txt): the entries read from a text. */
    constructor FromText(txt: string)
      ensures entries == ParseText(txt)
    {
      new;
      Parse(txt);
    }

    /** m_parse: splits the text into lines and groups them into entries. */
    method Parse(txt: string)
      modifies this
      ensures entries == ParseText(txt)
    {
      var lines := ReadAllLines(txt);
      var es: seq<Entry> := [];
      if |lines| > 0 {
        if lines[0] == ExtM3uStr {
          es := CollectExtended(lines);
        } else {
          es := CollectPlain(lines);
        }
        if |es| > 0 && M3uEntry.IsEmpty(es[|es| - 1]) {
          es := es[..|es| - 1];
        }
      }
      entries := es;
    }

    /** add: appends an entry. */
    method Add(e: Entry)
      modifies this
      ensures entries == old(entries) + [e]
    {
      entries := entries + [e];
    }

    method IsEmpty() returns (r: bool)
      ensures r <==> |entries| == 0
    {
      r := |entries| == 0;
    }

    /** isExtended: the first entry equals the header, by operator==. */
    method IsExtended() returns (r: bool)
      ensures r <==> |entries| > 0 && Same(entries[0], Header())
    {
      if |entries| == 0 {
        r := false;
      } else {
        var header := NewEntry("", ExtM3uStr);
        r := entries[0].data == header.data && entries[0].ext == header.ext;
      }
    }

    /** serialize: each entry's text followed by the end-of-line text. */
    method Serialise(eol: string) returns (r: string)
      ensures r == SerialiseDoc(entries, eol)
    {
      r := "";
      var i := 0;
      while i < |entries|
        invariant i <= |entries|
        invariant r == SerialiseDoc(entries[..i], eol)
      {
        SerialiseSnoc(entries[..i], entries[i], eol);
        assert entries[..i + 1] == entries[..i] + [entries[i]];
        r := r + M3uEntry.Serialise(entries[i], eol) + eol;
        i := i + 1;
      }
      assert entries[..|entries|] == entries;
    }
  }

  /** The extended branch of m_parse: the header entry, then the lines
      after it grouped one or two at a time. */
  method CollectExtended(lines: seq<string>) returns (es: seq<Entry>)
    requires |lines| > 0 && lines[0] == ExtM3uStr
    ensures es == Collect(lines)
  {
    var header := NewEntry("", lines[0]);
    es := [header];
    var i := 1;
    while i < |lines|
      invariant 1 <= i <= |lines|
      invariant es + ExtendedEntries(lines[i..]) == [header] + ExtendedEntries(lines[1..])
    {
      var made, next := CollectLine(lines, i);
      Regroup(es, made, ExtendedEntries(lines[next..]));
      es := es + made;
      i := next;
    }
    assert lines[|lines|..] == [];
  }

  /** One pass of the extended loop at line i: the entry it makes, if any,
      and the line the next pass starts at. */
  method CollectLine(lines: seq<string>, i: nat) returns (made: seq<Entry>, next: nat)
    requires 1 <= i < |lines|
    ensures i < next <= |lines|
    ensures ExtendedEntries(lines[i..]) == made + ExtendedEntries(lines[next..])
  {
    var line := lines[i];
    ExtendedAt(lines, i);
    next := i + 1;
    if line == "" {
      made := [];
      assert ExtendedEntries(lines[i..]) == ExtendedEntries(lines[next..]);
      PrependEmpty(ExtendedEntries(lines[next..]));
    } else if IsExtType(line, ExtInfStr) || IsExtType(line, ExtXStreamInfStr) {
      if i < |lines| - 1 {
        var e := NewEntry(lines[i + 1], line);
        made := [e];
        next := i + 2;
        assert ExtendedEntries(lines[i..]) == [EntryOf(lines[i + 1], line)] + ExtendedEntries(lines[next..]);
      } else {
        var e := NewEntry("", line);
        made := [e];
        assert lines[next..] == [];
        assert ExtendedEntries(lines[i..]) == [EntryOf("", line)];
      }
    } else if IsExtType(line, ExtStr) {
      var e := NewEntry("", line);
      made := [e];
      assert ExtendedEntries(lines[i..]) == [EntryOf("", line)] + ExtendedEntries(lines[next..]);
    } else {
      var e := NewEntry(line, "");
      made := [e];
      assert ExtendedEntries(lines[i..]) == [EntryOf(line, "")] + ExtendedEntries(lines[next..]);
    }
  }

  /** The plain branch of m_parse: a resource entry per non-empty line. */
  method CollectPlain(lines: seq<string>) returns (es: seq<Entry>)
    requires |lines| == 0 || lines[0] != ExtM3uStr
    ensures es == Collect(lines)
  {
    es := [];
    var i := 0;
    while i < |lines|
      invariant 0 <= i <= |lines|
      invariant es + PlainEntries(lines[i..]) == PlainEntries(lines)
    {
      PlainAt(lines, i);
      if lines[i] != "" {
        var e := NewEntry(lines[i], "");
        Regroup(es, [e], PlainEntries(lines[i + 1..]));
        es := es + [e];
      }
      i := i + 1;
    }
    assert lines[|lines|..] == [];
    assert lines[0..] == lines;
  }

  /** Moving one entry from the pending side to the done side. */
  lemma {:induction false} Regroup(es: seq<Entry>, made: seq<Entry>, rest: seq<Entry>)
    ensures es + (made + rest) == (es + made) + rest
  {
  }

  /** ExtendedEntries of the suffix that starts at i, one step unfolded. */
  lemma {:induction false} ExtendedAt(lines: seq<string>, i: nat)
    requires i < |lines|
    ensures ExtendedEntries(lines[i..]) ==
      if lines[i] == "" then ExtendedEntries(lines[i + 1..])
      else if PairsWithNext(lines[i]) then
        if i < |lines| - 1 then [EntryOf(lines[i + 1], lines[i])] + ExtendedEntries(lines[i + 2..])
        else [EntryOf("", lines[i])]
      else if IsExtType(lines[i], ExtStr) then [EntryOf("", lines[i])] + ExtendedEntries(lines[i + 1..])
      else [EntryOf(lines[i], "")] + ExtendedEntries(lines[i + 1..])
  {
    var s := lines[i..];
    assert s[0] == lines[i];
    assert s[1..] == lines[i + 1..];
    if i < |lines| - 1 {
      assert s[1] == lines[i + 1];
      assert s[2..] == lines[i + 2..];
    }
  }

  /** PlainEntries of the suffix that starts at i, one step unfolded. */
  lemma {:induction false} PlainAt(lines: seq<string>, i: nat)
    requires i < |lines|
    ensures PlainEntries(lines[i..]) ==
      if lines[i] == "" then PlainEntries(lines[i + 1..])
      else [EntryOf(lines[i], "")] + PlainEntries(lines[i + 1..])
  {
    var s := lines[i..];
    assert s[0] == lines[i];
    assert s[1..] == lines[i + 1..];
  }
}

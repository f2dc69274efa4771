/** One playlist entry (m3u::Entry in src/middleware/m3u.h): a resource
    line, a directive line, or a directive with the resource line it
    describes, together with the directive's attribute list. */
module M3uEntry {
  import opened M3uLines
  import opened M3uAttributes
  import M3uAttributeLists

  /** An entry is copied by value wherever the program stores it, so it is
      a value here. */
  datatype Entry = Entry(data: string, ext: string, params: seq<Param>)

  /** Entry(data, ext): the attribute list is read from the directive. */
  function EntryOf(data: string, ext: string): Entry
  {
    Entry(data, ext, ExtAttributes(ext, []))
  }

  /** The constructor, running the attribute scanner. */
  method NewEntry(data: string, ext: string) returns (e: Entry)
    ensures e == EntryOf(data, ext)
    ensures e.params == ExtAttributes(ext, [])
  {
    var params := ParseExtData(ext, []);
    e := Entry(data, ext, params);
  }

  /** setExt: the directive is replaced and its attribute list re-read;
      a directive without ':' leaves the old list in place. */
  method SetExt(e: Entry, ext: string) returns (r: Entry)
    ensures r == Entry(e.data, ext, ExtAttributes(ext, e.params))
  {
    var params := ParseExtData(ext, e.params);
    r := Entry(e.data, ext, params);
  }

  /** setData: only the resource line changes. */
  function SetData(e: Entry, data: string): (r: Entry)
    ensures Same(r, EntryOf(data, e.ext))
    ensures Same(r, e) <==> data == e.data
    ensures r.params == e.params
  {
    Entry(data, e.ext, e.params)
  }

  // ---------------------------------------------------------------------------
  // Kinds of entries
  // ---------------------------------------------------------------------------

  /** Neither a directive nor a resource line. */
  predicate IsEmpty(e: Entry)
  {
    e.ext == "" && e.data == ""
  }

  /** A comment is a resource line starting with '#'. */
  predicate IsComment(e: Entry)
  {
    e.data != "" && e.data[0] == '#'
  }

  /** A directive without a resource line. */
  predicate IsExtension(e: Entry)
  {
    e.ext != "" && e.data == ""
  }

  /** A resource, with or without a directive. */
  predicate IsResource(e: Entry)
  {
    e.data != "" && e.data[0] != '#'
  }

  /** An entry with a directive, with or without a resource line. */
  predicate HasExtension(e: Entry)
  {
    e.ext != ""
  }

  /** A resource without a directive. */
  predicate IsRegularRes(e: Entry)
  {
    IsResource(e) && !HasExtension(e)
  }

  /** extIs: whether the directive starts with the given text. */
  predicate ExtIs(e: Entry, base: string)
    ensures ExtIs(e, base) <==> |base| <= |e.ext| && e.ext[..|base|] == base
    ensures ExtIs(e, base) && base != "" ==> HasExtension(e)
  {
    IsExtTypeIsPrefix(e.ext, base);
    IsExtType(e.ext, base)
  }

  /** operator==: entries compare by resource line and directive only, not
      by their attribute lists. */
  predicate Same(a: Entry, b: Entry)
  {
    a.data == b.data && a.ext == b.ext
  }

  /** Every entry is exactly one of empty, a bare directive, a comment or a
      resource, and a regular resource is a resource without a directive. */
  lemma {:induction false} EntryKinds(e: Entry)
    ensures IsEmpty(e) || IsExtension(e) || IsComment(e) || IsResource(e)
    ensures IsEmpty(e) ==> !IsExtension(e) && !IsComment(e) && !IsResource(e)
    ensures IsExtension(e) ==> !IsComment(e) && !IsResource(e)
    ensures !(IsComment(e) && IsResource(e))
    ensures IsRegularRes(e) <==> IsResource(e) && e.ext == ""
    ensures HasExtension(e) <==> !IsEmpty(e) && !(e.data != "" && e.ext == "")
  {
  }

  /** The kinds of an entry read off the lines it occupies in a playlist. */
  lemma {:induction false} KindLines(e: Entry)
    ensures IsEmpty(e) <==> EntryLines(e) == []
    ensures IsExtension(e) ==> EntryLines(e) == [e.ext]
    ensures IsRegularRes(e) ==> EntryLines(e) == [e.data]
    ensures HasExtension(e) ==> EntryLines(e)[0] == e.ext
    ensures IsResource(e) || IsComment(e) ==> EntryLines(e)[|EntryLines(e)| - 1] == e.data
  {
  }

  /** operator== ignores the attribute lists, and entries it calls equal are
      written out identically. */
  lemma {:induction false} SameLines(a: Entry, b: Entry, eol: string)
    ensures a == b ==> Same(a, b)
    ensures Same(a, b) ==> EntryLines(a) == EntryLines(b) && Serialise(a, eol) == Serialise(b, eol)
    ensures Same(a, b) <==> Same(b, a)
  {
  }

  /** The setters keep the attribute list in step with the directive only
      when the new directive has a ':': setData never re-reads it, and a
      ':'-less directive keeps the old list, although operator== then sees
      an entry equal to a freshly built one with no attributes. */
  lemma {:induction false} SetterAttributes(e: Entry, data: string, ext: string)
    ensures SetData(e, data).params == e.params && SetData(e, data).ext == e.ext
    ensures (forall i :: 0 <= i < |ext| ==> ext[i] != Colon) ==>
      Entry(e.data, ext, ExtAttributes(ext, e.params)).params == e.params &&
      EntryOf(e.data, ext).params == [] &&
      Same(Entry(e.data, ext, ExtAttributes(ext, e.params)), EntryOf(e.data, ext))
    ensures (exists i :: 0 <= i < |ext| && ext[i] == Colon) ==>
      Entry(e.data, ext, ExtAttributes(ext, e.params)) == EntryOf(e.data, ext)
  {
    M3uAttributeLists.ExtAttributesShape(ext, e.params);
    M3uAttributeLists.ExtAttributesShape(ext, []);
    FindFromFirst(ext, Colon, 0);
  }

  // ---------------------------------------------------------------------------
  // Entry::serialize
  // ---------------------------------------------------------------------------

  /** The directive, the end-of-line text when both parts are present, and
      the resource line. */
  function Serialise(e: Entry, eol: string): (r: string)
    ensures r == "" <==> IsEmpty(e)
    ensures e.ext <= r
  {
    (if e.ext != "" then e.ext + (if e.data != "" then eol else "") else "") +
    (if e.data != "" then e.data else "")
  }

  /** The lines an entry occupies in a playlist: its directive line, then its
      resource line, leaving out the empty parts. */
  function EntryLines(e: Entry): (ls: seq<string>)
    ensures |ls| <= 2
    ensures forall j :: 0 <= j < |ls| ==> ls[j] != ""
  {
    (if e.ext != "" then [e.ext] else []) + (if e.data != "" then [e.data] else [])
  }

  /** A non-empty entry followed by the end-of-line text is its lines, each
      terminated by it. */
  lemma {:induction false} SerialiseTerminated(e: Entry, eol: string)
    requires !IsEmpty(e)
    ensures Serialise(e, eol) + eol == Terminated(EntryLines(e), eol)
  {
    var ls := EntryLines(e);
    if e.ext != "" && e.data != "" {
      assert ls == [e.ext, e.data];
      assert Serialise(e, eol) == e.ext + eol + e.data;
      TerminatedPair(e.ext, e.data, eol);
    } else if e.ext != "" {
      assert ls == [e.ext];
      assert Serialise(e, eol) == e.ext;
      TerminatedSingle(e.ext, eol);
    } else {
      assert ls == [e.data];
      assert Serialise(e, eol) == e.data;
      TerminatedSingle(e.data, eol);
    }
  }

  /** Splitting a serialised entry with an LF after it gives its lines back,
      provided neither part holds a line terminator. */
  lemma {:induction false} SerialiseSplits(e: Entry)
    requires !IsEmpty(e) && NoTerminator(e.ext) && NoTerminator(e.data)
    ensures Lines(Serialise(e, "\n") + "\n") == EntryLines(e) + [""]
  {
    SerialiseTerminated(e, "\n");
    var ls := EntryLines(e);
    assert forall j :: 0 <= j < |ls| ==> ls[j] == e.ext || ls[j] == e.data;
    LinesOfTerminated(ls);
  }
}

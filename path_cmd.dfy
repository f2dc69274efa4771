/** The path command (app::path in src/application/path.cpp): copies a
    playlist, re-rooting every resource line that starts with a given base
    path, and settles the header and #EXTENC: lines according to the output
    file's extension. */
module PathCmd {
  import opened Wrappers
  import opened M3uLines
  import opened M3uEntry
  import opened M3uDocument
  import Util

  /** The command line as the rewrite sees it: INBASEPATH, OUTBASEPATH,
      --remove, and whether OUTFILE has the .m3u8 extension. */
  datatype PathArgs = PathArgs(inBase: string, outBase: string, remove: bool, outIsM3u8: bool)

  /** Why the command stops: an #EXTENC: directive naming an encoding other
      than UTF-8 (EC_ERROR), or an at(0) that throws std::out_of_range (on
      an empty remainder, or on an #EXTENC: without attributes). */
  datatype PathError = EncodingNotSupported(value: string) | OutOfRange

  /** extencEntry: the directive written in front of a non-.m3u8 output. */
  function EncodingEntry(): Entry
  {
    EntryOf("", ExtEncStr + "UTF-8")
  }

  /** The input starts with the header followed by an #EXTENC: directive. */
  predicate DeclaresEncoding(es: seq<Entry>)
  {
    |es| > 1 && Same(es[0], Header()) && ExtIs(es[1], ExtEncStr)
  }

  /** The value of the #EXTENC: entry's first attribute. */
  function DeclaredEncoding(es: seq<Entry>): string
    requires DeclaresEncoding(es) && |es[1].params| > 0
  {
    es[1].params[0].value.data
  }

  /** Lines 104-111. A declared encoding must be UTF-8 in any letter case.
      An #EXTENC: entry without attributes fails as well, but on the way:
      the error message reads the first attribute with at(0), which throws. */
  function EncodingError(es: seq<Entry>): Option<PathError>
  {
    if !DeclaresEncoding(es) then None
    else if |es[1].params| == 0 then Some(OutOfRange)
    else if Util.Upper(DeclaredEncoding(es)) != "UTF-8" then Some(EncodingNotSupported(DeclaredEncoding(es)))
    else None
  }

  // ---------------------------------------------------------------------------
  // String helpers the rewrite uses
  // ---------------------------------------------------------------------------

  /** std::string::substr(pos, n): at most n characters from pos. */
  function Substr(s: string, pos: nat, n: nat): (r: string)
    requires pos <= |s|
    ensures |r| == if pos + n <= |s| then n else |s| - pos
  {
    if pos + n <= |s| then s[pos..pos + n] else s[pos..]
  }

  /** `uri.substr(0, base.length()) == base` is the prefix test. */
  lemma {:induction false} SubstrPrefix(s: string, p: string)
    ensures Substr(s, 0, |p|) == p <==> p <= s
  {
    if |p| <= |s| {
      assert Substr(s, 0, |p|) == s[..|p|];
    } else {
      assert |Substr(s, 0, |p|)| < |p|;
      assert !(p <= s);
    }
  }

  /** omw::replaceAll on characters: every occurrence of `from` becomes `to`. */
  function ReplaceAll(s: string, from: char, to: char): (r: string)
    ensures |r| == |s|
    ensures forall k :: 0 <= k < |s| ==> r[k] == if s[k] == from then to else s[k]
  {
    seq(|s|, k requires 0 <= k < |s| => if s[k] == from then to else s[k])
  }

  /** After the replacement no backslash is left, the replacement is
      idempotent, and a text without backslashes is left as it is. */
  lemma {:induction false} ReplaceAllSlashes(s: string)
    ensures var r := ReplaceAll(s, '\\', '/');
      (forall k :: 0 <= k < |r| ==> r[k] != '\\') &&
      ReplaceAll(r, '\\', '/') == r &&
      ((forall k :: 0 <= k < |s| ==> s[k] != '\\') ==> r == s)
  {
  }

  // ---------------------------------------------------------------------------
  // The rewrite, as functions
  // ---------------------------------------------------------------------------

  /** The entries the target starts with and the index copying resumes at
      (lines 114-130). */
  datatype Start = Start(head: seq<Entry>, from: nat)

  function StartOf(es: seq<Entry>, outIsM3u8: bool): (s: Start)
    ensures s.from <= |es|
  {
    if !outIsM3u8 && |es| > 0 && Same(es[0], Header()) then
      Start([Header(), EncodingEntry()], if |es| > 1 && ExtIs(es[1], ExtEncStr) then 2 else 1)
    else if outIsM3u8 && DeclaresEncoding(es) then Start([Header()], 2)
    else Start([], 0)
  }

  /** The path a matching resource is re-rooted to, before lexically_normal:
      with --remove the file name alone when there is no INBASEPATH, else
      the remainder without its leading '/' (an empty path when there is
      none); without --remove OUTBASEPATH, '/' and the remainder. */
  function NewPath(rest: string, a: PathArgs, filename: string -> string): Result<string, PathError>
  {
    if a.remove then
      if a.inBase == "" then Success(filename(rest))
      else if |rest| == 0 then Failure(OutOfRange)
      else if rest[0] == '/' then Success(rest[1..])
      else Success("")
    else Success(a.outBase + "/" + rest)
  }

  /** The remainder of a matching resource line: INBASEPATH cut off and
      backslashes turned into slashes. */
  function Rest(data: string, inBase: string): string
    requires inBase <= data
  {
    ReplaceAll(data[|inBase|..], '\\', '/')
  }

  /** Whether the loop rewrites an entry: a resource whose line starts with
      INBASEPATH. */
  predicate Matches(e: Entry, inBase: string)
  {
    IsResource(e) && inBase <= e.data
  }

  /** One turn of the copy loop (lines 134-179). */
  function RewriteEntry(e: Entry, a: PathArgs, normal: string -> string, filename: string -> string)
    : Result<Entry, PathError>
  {
    if !Matches(e, a.inBase) then Success(e)
    else match NewPath(Rest(e.data, a.inBase), a, filename)
      case Failure(err) => Failure(err)
      case Success(p) => Success(EntryOf(normal(p), e.ext))
  }

  /** The copy loop over a run of entries; the first failure ends it. */
  function RewriteAll(xs: seq<Entry>, a: PathArgs, normal: string -> string, filename: string -> string)
    : (r: Result<seq<Entry>, PathError>)
    ensures r.Success? ==> (|r.value| == |xs| &&
      (forall k :: 0 <= k < |xs| ==> RewriteEntry(xs[k], a, normal, filename) == Success(r.value[k])))
    ensures r.Failure? <==> exists k :: 0 <= k < |xs| && RewriteEntry(xs[k], a, normal, filename).Failure?
    decreases |xs|
  {
    if |xs| == 0 then Success([])
    else
      var front := xs[..|xs| - 1];
      assert forall k :: 0 <= k < |front| ==> front[k] == xs[k];
      match RewriteAll(front, a, normal, filename)
      case Failure(err) => Failure(err)
      case Success(done) =>
        match RewriteEntry(xs[|xs| - 1], a, normal, filename)
        case Failure(err) => Failure(err)
        case Success(e) => Success(done + [e])
  }

  /** The target playlist of app::path on the entries of the input. */
  function Reroot(es: seq<Entry>, a: PathArgs, normal: string -> string, filename: string -> string)
    : Result<seq<Entry>, PathError>
  {
    if EncodingError(es).Some? then Failure(EncodingError(es).value)
    else
      var s := StartOf(es, a.outIsM3u8);
      match RewriteAll(es[s.from..], a, normal, filename)
      case Failure(err) => Failure(err)
      case Success(body) => Success(s.head + body)
  }

  // ---------------------------------------------------------------------------
  // The command, step by step
  // ---------------------------------------------------------------------------

  /** Lines 98-180: the check of #EXTENC:, the start of the target, the copy
      loop, and the serialised target that is written to OUTFILE. */
  method RerootPlaylist(m: M3U, a: PathArgs, normal: string -> string, filename: string -> string)
    returns (r: Result<string, PathError>)
    ensures Reroot(m.entries, a, normal, filename).Failure? ==>
      r == Failure(Reroot(m.entries, a, normal, filename).error)
    ensures Reroot(m.entries, a, normal, filename).Success? ==>
      r == Success(SerialiseDoc(Reroot(m.entries, a, normal, filename).value, SerializeEndOfLine))
  {
    var es := m.entries;
    var encodingError := CheckEncoding(es);
    if encodingError.Some? {
      return Failure(encodingError.value);
    }
    var target := new M3U();
    var entryIndex := StartTarget(target, es, a.outIsM3u8);
    var copyError := CopyEntries(target, es, entryIndex, a, normal, filename);
    if copyError.Some? {
      OnlyOutOfRange(es[entryIndex..], a, normal, filename);
      return Failure(copyError.value);
    }
    var txt := target.Serialise(SerializeEndOfLine);
    r := Success(txt);
  }

  /** Lines 132-178: the copy loop from entryIndex on; an exception leaves
      the rest uncopied. */
  method CopyEntries(target: M3U, es: seq<Entry>, entryIndex: nat, a: PathArgs,
                     normal: string -> string, filename: string -> string)
    returns (err: Option<PathError>)
    requires entryIndex <= |es|
    modifies target
    ensures RewriteAll(es[entryIndex..], a, normal, filename).Failure? ==>
      err == Some(RewriteAll(es[entryIndex..], a, normal, filename).error)
    ensures RewriteAll(es[entryIndex..], a, normal, filename).Success? ==>
      err == None && target.entries == old(target.entries) + RewriteAll(es[entryIndex..], a, normal, filename).value
  {
    ghost var head := target.entries;
    var i := entryIndex;
    ghost var done: seq<Entry> := [];
    while i < |es|
      invariant entryIndex <= i <= |es|
      invariant RewriteAll(es[entryIndex..i], a, normal, filename) == Success(done)
      invariant target.entries == head + done
    {
      var next := RewriteOne(es[i], a, normal, filename);
      if next.Failure? {
        LoopFails(es, entryIndex, i, a, normal, filename);
        return Some(next.error);
      }
      RewriteStep(es, entryIndex, i, a, normal, filename, done, next.value);
      target.Add(next.value);
      done := done + [next.value];
      i := i + 1;
    }
    assert es[entryIndex..] == es[entryIndex..i];
    err := None;
  }

  /** Lines 104-111: an #EXTENC: after the header must name UTF-8, in any
      letter case. */
  method CheckEncoding(es: seq<Entry>) returns (err: Option<PathError>)
    ensures err == EncodingError(es)
  {
    var headerEntry := NewEntry("", ExtM3uStr);
    err := None;
    if |es| > 1 && Same(es[0], headerEntry) && ExtIs(es[1], ExtEncStr) {
      if |es[1].params| < 1 {
        return Some(OutOfRange);
      }
      var value := es[1].params[0].value.data;
      var upper := Util.ToUpper(value);
      if upper != "UTF-8" {
        err := Some(EncodingNotSupported(value));
      }
    }
  }

  /** Lines 114-130: the entries the target starts with and the index the
      copy loop starts at. */
  method StartTarget(target: M3U, es: seq<Entry>, outIsM3u8: bool) returns (entryIndex: nat)
    requires target.entries == []
    modifies target
    ensures target.entries == StartOf(es, outIsM3u8).head
    ensures entryIndex == StartOf(es, outIsM3u8).from
  {
    var headerEntry := NewEntry("", ExtM3uStr);
    var extencEntry := NewEntry("", ExtEncStr + "UTF-8");
    entryIndex := 0;
    if !outIsM3u8 && |es| > 0 && Same(es[0], headerEntry) {
      target.Add(headerEntry);
      target.Add(extencEntry);
      if |es| > 1 && ExtIs(es[1], ExtEncStr) {
        entryIndex := 2;
      } else {
        entryIndex := 1;
      }
    }
    if outIsM3u8 && |es| > 1 && Same(es[0], headerEntry) && ExtIs(es[1], ExtEncStr) {
      target.Add(headerEntry);
      entryIndex := 2;
    }
  }

  /** Lines 134-179 for one entry: the entry to add, or the exception that
      uri.at(0) throws on an empty remainder. */
  method RewriteOne(e: Entry, a: PathArgs, normal: string -> string, filename: string -> string)
    returns (r: Result<Entry, PathError>)
    ensures r == RewriteEntry(e, a, normal, filename)
  {
    r := Success(e);
    if e.data != "" && e.data[0] != '#' {
      var uri := e.data;
      SubstrPrefix(uri, a.inBase);
      if Substr(uri, 0, |a.inBase|) == a.inBase {
        uri := uri[|a.inBase|..];
        uri := ReplaceAll(uri, '\\', '/');
        var path := "";
        if a.remove {
          if a.inBase == "" {
            path := filename(uri);
          } else {
            if |uri| == 0 {
              return Failure(OutOfRange);
            }
            if uri[0] == '/' {
              path := uri[1..];
            }
          }
        } else {
          uri := a.outBase + "/" + uri;
          path := uri;
        }
        var next := NewEntry(normal(path), e.ext);
        r := Success(next);
      }
    }
  }

  /** The function's view of one more turn of the loop. */
  lemma {:induction false} RewriteStep(es: seq<Entry>, from: nat, i: nat, a: PathArgs,
                                       normal: string -> string, filename: string -> string,
                                       done: seq<Entry>, next: Entry)
    requires from <= i < |es|
    requires RewriteAll(es[from..i], a, normal, filename) == Success(done)
    requires RewriteEntry(es[i], a, normal, filename) == Success(next)
    ensures RewriteAll(es[from..i + 1], a, normal, filename) == Success(done + [next])
  {
    assert es[from..i + 1][..i - from] == es[from..i];
  }

  /** An entry the loop cannot rewrite makes the whole copy fail with its
      error. */
  lemma {:induction false} LoopFails(es: seq<Entry>, from: nat, i: nat, a: PathArgs,
                                     normal: string -> string, filename: string -> string)
    requires from <= i < |es|
    requires RewriteEntry(es[i], a, normal, filename).Failure?
    ensures RewriteAll(es[from..], a, normal, filename) == Failure(RewriteEntry(es[i], a, normal, filename).error)
  {
    var xs := es[from..];
    assert xs[i - from] == es[i];
    OnlyOutOfRange(xs, a, normal, filename);
    EmptyRest(es[i], a, normal, filename);
  }

  /** The only way the copy loop fails is the empty remainder. */
  lemma {:induction false} OnlyOutOfRange(xs: seq<Entry>, a: PathArgs, normal: string -> string,
                                          filename: string -> string)
    ensures RewriteAll(xs, a, normal, filename).Failure? ==>
      RewriteAll(xs, a, normal, filename).error == OutOfRange
    decreases |xs|
  {
    if |xs| > 0 {
      OnlyOutOfRange(xs[..|xs| - 1], a, normal, filename);
    }
  }

  // ---------------------------------------------------------------------------
  // What the command promises
  // ---------------------------------------------------------------------------

  /** The command stops on an unsupported encoding exactly when the input
      declares one whose upper-cased name is not UTF-8; an #EXTENC: without
      attributes makes it stop on the exception instead. */
  lemma {:induction false} EncodingErrors(es: seq<Entry>, a: PathArgs, normal: string -> string,
                                          filename: string -> string)
    ensures Reroot(es, a, normal, filename).Failure? && Reroot(es, a, normal, filename).error.EncodingNotSupported? <==>
      DeclaresEncoding(es) && |es[1].params| > 0 && Util.Upper(DeclaredEncoding(es)) != "UTF-8"
    ensures DeclaresEncoding(es) && |es[1].params| == 0 ==> Reroot(es, a, normal, filename) == Failure(OutOfRange)
  {
    if EncodingError(es).None? {
      OnlyOutOfRange(es[StartOf(es, a.outIsM3u8).from..], a, normal, filename);
    }
  }

  /** The entry --remove cannot rewrite: its resource line is INBASEPATH
      itself, so nothing is left to read after it. */
  predicate EmptyRemainder(e: Entry, a: PathArgs)
  {
    a.remove && a.inBase != "" && Matches(e, a.inBase) && e.data == a.inBase
  }

  /** Some entry of the run has an empty remainder under --remove. */
  predicate SomeEmptyRemainder(xs: seq<Entry>, a: PathArgs)
  {
    exists k :: 0 <= k < |xs| && EmptyRemainder(xs[k], a)
  }

  /** Past the encoding check the command stops exactly when some entry
      from the loop's start index on has an empty remainder under --remove. */
  lemma {:induction false} RangeErrors(es: seq<Entry>, a: PathArgs, normal: string -> string,
                                       filename: string -> string)
    requires EncodingError(es).None?
    ensures Reroot(es, a, normal, filename) == Failure(OutOfRange) <==>
      SomeEmptyRemainder(es[StartOf(es, a.outIsM3u8).from..], a)
  {
    var xs := es[StartOf(es, a.outIsM3u8).from..];
    OnlyOutOfRange(xs, a, normal, filename);
    CopyFails(xs, a, normal, filename);
  }

  lemma {:induction false} CopyFails(xs: seq<Entry>, a: PathArgs, normal: string -> string,
                                     filename: string -> string)
    ensures RewriteAll(xs, a, normal, filename).Failure? <==> SomeEmptyRemainder(xs, a)
  {
    forall k | 0 <= k < |xs|
      ensures RewriteEntry(xs[k], a, normal, filename).Failure? <==> EmptyRemainder(xs[k], a)
    {
      EmptyRest(xs[k], a, normal, filename);
    }
  }

  /** One entry fails exactly when --remove is given with an INBASEPATH and
      the resource line is INBASEPATH itself. */
  lemma {:induction false} EmptyRest(e: Entry, a: PathArgs, normal: string -> string, filename: string -> string)
    ensures RewriteEntry(e, a, normal, filename).Failure? <==> EmptyRemainder(e, a)
  {
    if Matches(e, a.inBase) {
      assert |Rest(e.data, a.inBase)| == |e.data| - |a.inBase|;
      if e.data == a.inBase {
        assert e.data[|a.inBase|..] == [];
      } else {
        assert e.data[..|a.inBase|] == a.inBase;
      }
    }
  }

  /** The start of a successful target: with a non-.m3u8 OUTFILE and a
      header in the input it begins with the header and #EXTENC:UTF-8 (the
      input's own #EXTENC: dropped); with a .m3u8 OUTFILE and a header plus
      #EXTENC: it begins with the header alone, the #EXTENC: dropped;
      otherwise it is the copied entries alone, one for each input entry. */
  lemma {:induction false} RerootStart(es: seq<Entry>, a: PathArgs, normal: string -> string,
                                       filename: string -> string)
    requires Reroot(es, a, normal, filename).Success?
    ensures var ts := Reroot(es, a, normal, filename).value;
      (!a.outIsM3u8 && |es| > 0 && Same(es[0], Header()) ==>
        |ts| >= 2 && ts[0] == Header() && ts[1] == EncodingEntry() &&
        |ts| == (if |es| > 1 && ExtIs(es[1], ExtEncStr) then |es| else |es| + 1)) &&
      (a.outIsM3u8 && DeclaresEncoding(es) ==> |ts| == |es| - 1 && ts[0] == Header()) &&
      (!(|es| > 0 && Same(es[0], Header())) ==> |ts| == |es|) &&
      (a.outIsM3u8 && !DeclaresEncoding(es) ==> |ts| == |es|)
  {
  }

  /** Every copied entry sits at its place in the target: one that does not
      match is copied as it is, a matching one keeps its directive and gets
      the normalised new path as its resource line. */
  lemma {:induction false} RerootEntries(es: seq<Entry>, a: PathArgs, normal: string -> string,
                                         filename: string -> string, k: nat)
    requires Reroot(es, a, normal, filename).Success?
    requires StartOf(es, a.outIsM3u8).from <= k < |es|
    ensures var s, ts := StartOf(es, a.outIsM3u8), Reroot(es, a, normal, filename).value;
      |ts| == |s.head| + |es| - s.from &&
      RewriteEntry(es[k], a, normal, filename) == Success(ts[|s.head| + k - s.from])
  {
    var s := StartOf(es, a.outIsM3u8);
    var xs := es[s.from..];
    var j := k - s.from;
    assert xs[j] == es[k];
    RerootBody(es, a, normal, filename);
    var body := RewriteAll(xs, a, normal, filename).value;
    RewriteAllAt(xs, a, normal, filename, j);
    assert (s.head + body)[|s.head| + j] == body[j];
  }

  /** The j-th rewritten entry is the rewrite of the j-th entry. */
  lemma {:induction false} RewriteAllAt(xs: seq<Entry>, a: PathArgs, normal: string -> string,
                                        filename: string -> string, j: nat)
    requires RewriteAll(xs, a, normal, filename).Success? && j < |xs|
    ensures j < |RewriteAll(xs, a, normal, filename).value|
    ensures RewriteEntry(xs[j], a, normal, filename) == Success(RewriteAll(xs, a, normal, filename).value[j])
  {
  }

  /** A target that was made is the start followed by the rewritten entries. */
  lemma {:induction false} RerootBody(es: seq<Entry>, a: PathArgs, normal: string -> string,
                                      filename: string -> string)
    requires Reroot(es, a, normal, filename).Success?
    ensures var s := StartOf(es, a.outIsM3u8);
      RewriteAll(es[s.from..], a, normal, filename).Success? &&
      Reroot(es, a, normal, filename).value == s.head + RewriteAll(es[s.from..], a, normal, filename).value
  {
    assert EncodingError(es).None?;
  }

  /** What one turn of the loop adds: an entry that does not match, as it
      is; a matching one, its directive with the normalised new path as its
      resource line. */
  lemma {:induction false} RewriteEntryCases(e: Entry, a: PathArgs, normal: string -> string,
                                             filename: string -> string)
    ensures !Matches(e, a.inBase) ==> RewriteEntry(e, a, normal, filename) == Success(e)
    ensures Matches(e, a.inBase) && !EmptyRemainder(e, a) ==>
      NewPath(Rest(e.data, a.inBase), a, filename).Success? &&
      RewriteEntry(e, a, normal, filename) ==
        Success(EntryOf(normal(NewPath(Rest(e.data, a.inBase), a, filename).value), e.ext))
  {
    EmptyRest(e, a, normal, filename);
  }

  /** The hazards of --remove with an INBASEPATH: a remainder not starting
      with '/' becomes the normalised empty path, and one starting with '/'
      loses only that character. Without --remove the new path is always
      OUTBASEPATH, '/' and the remainder; backslashes never survive. */
  lemma {:induction false} NewPathCases(rest: string, a: PathArgs, filename: string -> string)
    ensures a.remove && a.inBase != "" && |rest| > 0 && rest[0] != '/' ==> NewPath(rest, a, filename) == Success("")
    ensures a.remove && a.inBase != "" && |rest| > 0 && rest[0] == '/' ==>
      NewPath(rest, a, filename).Success? && "/" + NewPath(rest, a, filename).value == rest
    ensures !a.remove ==> NewPath(rest, a, filename) == Success(a.outBase + "/" + rest)
    ensures a.remove && a.inBase == "" ==> NewPath(rest, a, filename) == Success(filename(rest))
  {
    if a.remove && a.inBase != "" && |rest| > 0 && rest[0] == '/' {
      assert "/" + rest[1..] == rest;
    }
  }
}

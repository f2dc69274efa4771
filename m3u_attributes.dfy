/** The attribute lists of directive lines (Entry::m_parseExtData,
    ExtParamValue::m_parse and ExtParamContainer in src/middleware/m3u.cpp):
    a loose reading of the attribute lists of section 4.2 of RFC 8216, where
    the text after the first ':' is a comma-separated list of KEY=VALUE and
    bare tokens, a comma inside double quotes is not a separator and a
    doubled quote inside a quoted value stands for one quote. */
module M3uAttributes {
  import opened Wrappers

  const Quote: char := '"'
  const Comma: char := ','
  const Equals: char := '='
  const Colon: char := ':'

  // ---------------------------------------------------------------------------
  // Values and parameters
  // ---------------------------------------------------------------------------

  /** T_UNKNOWN, T_INTEGER, T_STRING and T_SYMBOL. */
  datatype ValueType = Unknown | Integer | QuotedString | Symbol

  /** ExtParamValue: a type tag and the stored text. */
  datatype ParamValue = ParamValue(kind: ValueType, data: string)

  /** ExtParameter: key, value and the validity flag. */
  datatype Param = Param(key: string, value: ParamValue, valid: bool)

  /** The default-constructed ExtParamValue. */
  const UnknownValue: ParamValue := ParamValue(Unknown, "")

  /** The default-constructed ExtParameter: empty key, unknown value, invalid. */
  const InvalidParam: Param := Param("", UnknownValue, false)

  /** ExtParameter(key, value): the value text is typed by ParseValue and the
      parameter is valid. */
  function MakeParam(key: string, value: string): (p: Param)
    ensures p.valid && p.key == key && p.value == ParseValue(value)
  {
    Param(key, ParseValue(value), true)
  }

  /** operator==(ExtParamValue, string): only the stored text is compared. */
  predicate ValueIs(v: ParamValue, s: string)
  {
    v.data == s
  }

  // ---------------------------------------------------------------------------
  // Assumed omw predicates: isInteger, isUInteger, replaceAll("\"\"", '"')
  // ---------------------------------------------------------------------------

  predicate IsDigit(c: char)
  {
    '0' <= c <= '9'
  }

  /** omw::isUInteger: one or more decimal digits. */
  predicate IsUInteger(s: string)
  {
    |s| >= 1 && forall i :: 0 <= i < |s| ==> IsDigit(s[i])
  }

  /** omw::isInteger: an optional sign, then one or more decimal digits. */
  predicate IsInteger(s: string)
  {
    IsUInteger(s) || (|s| >= 2 && (s[0] == '+' || s[0] == '-') && IsUInteger(s[1..]))
  }

  /** omw::replaceAll(s, "\"\"", '"'), scanning left to right and resuming
      after each replacement: every non-overlapping doubled quote becomes one. */
  function Unescape(s: string): (r: string)
    ensures |r| <= |s|
    decreases |s|
  {
    if |s| == 0 then ""
    else if |s| >= 2 && s[0] == Quote && s[1] == Quote then [Quote] + Unescape(s[2..])
    else [s[0]] + Unescape(s[1..])
  }

  /** The inverse direction: every quote doubled. */
  function Escape(s: string): (r: string)
    ensures |r| >= |s|
    decreases |s|
  {
    if |s| == 0 then ""
    else (if s[0] == Quote then [Quote, Quote] else [s[0]]) + Escape(s[1..])
  }

  /** Doubling the quotes and collapsing them again gives the text back. */
  lemma {:induction false} UnescapeEscape(s: string)
    ensures Unescape(Escape(s)) == s
    decreases |s|
  {
    if |s| > 0 {
      UnescapeEscape(s[1..]);
      var e := Escape(s[1..]);
      if s[0] == Quote {
        var t := [Quote, Quote] + e;
        assert Escape(s) == t;
        assert t[2..] == e;
        assert Unescape(t) == [Quote] + Unescape(e);
      } else {
        var t := [s[0]] + e;
        assert Escape(s) == t;
        assert t[1..] == e;
        assert Unescape(t) == [s[0]] + Unescape(e);
      }
      assert s == [s[0]] + s[1..];
    }
  }

  /** Text without a quote is left alone. */
  lemma {:induction false} UnescapeNoQuote(s: string)
    requires forall i :: 0 <= i < |s| ==> s[i] != Quote
    ensures Unescape(s) == s
    decreases |s|
  {
    if |s| > 0 {
      UnescapeNoQuote(s[1..]);
      assert s == [s[0]] + s[1..];
    }
  }

  // ---------------------------------------------------------------------------
  // ExtParamValue::m_parse
  // ---------------------------------------------------------------------------

  /** A value that opens and closes with a double quote (and has room for both). */
  predicate IsQuoted(v: string)
  {
    |v| >= 2 && v[0] == Quote && v[|v| - 1] == Quote
  }

  /** ExtParamValue(value): an empty value stays unknown; a quoted value
      becomes a string with the outer quotes removed and doubled quotes
      collapsed; otherwise an integer or a symbol holding the value verbatim. */
  function ParseValue(v: string): (r: ParamValue)
    ensures r.kind == Unknown <==> v == ""
    ensures r.kind == Unknown ==> r.data == ""
    ensures r.kind == QuotedString <==> IsQuoted(v)
    ensures r.kind == QuotedString ==> r.data == Unescape(v[1..|v| - 1])
    ensures r.kind == Integer <==> !IsQuoted(v) && IsInteger(v)
    ensures r.kind == Integer || r.kind == Symbol ==> r.data == v
  {
    if v == "" then UnknownValue
    else if IsQuoted(v) then ParamValue(QuotedString, Unescape(v[1..|v| - 1]))
    else if IsInteger(v) then ParamValue(Integer, v)
    else ParamValue(Symbol, v)
  }

  /** Quoting an escaped text and typing it gives the text back as a string. */
  lemma {:induction false} QuotedRoundTrip(s: string)
    ensures ParseValue([Quote] + Escape(s) + [Quote]) == ParamValue(QuotedString, s)
  {
    var v := [Quote] + Escape(s) + [Quote];
    assert v[1..|v| - 1] == Escape(s);
    UnescapeEscape(s);
  }

  /** ExtParamValue::m_parse exactly as written: a value that starts and ends
      with '"' is cut to std::string(begin + 1, end - 1), whose range is
      inverted for the one-character value "\"" (None: undefined behaviour). */
  function ParseValueAsWritten(v: string): Option<ParamValue>
  {
    if v == "" then Some(UnknownValue)
    else if v[0] == Quote && v[|v| - 1] == Quote then
      if |v| < 2 then None else Some(ParamValue(QuotedString, Unescape(v[1..|v| - 1])))
    else if IsInteger(v) then Some(ParamValue(Integer, v))
    else Some(ParamValue(Symbol, v))
  }

  /** The written code is undefined exactly for the lone quote; everywhere
      else it agrees with ParseValue, which types the lone quote a symbol. */
  lemma {:induction false} LoneQuote(v: string)
    ensures ParseValueAsWritten(v).None? <==> v == [Quote]
    ensures ParseValueAsWritten(v).Some? ==> ParseValueAsWritten(v).value == ParseValue(v)
    ensures ParseValue([Quote]) == ParamValue(Symbol, [Quote])
  {
    assert !IsDigit([Quote][0]);
    assert !IsInteger([Quote]);
  }

  // ---------------------------------------------------------------------------
  // The token grammar of m_parseExtData
  // ---------------------------------------------------------------------------

  /** The position of the first c at or after i, |s| when there is none. */
  function FindFrom(s: string, c: char, i: nat): (k: nat)
    requires i <= |s|
    ensures i <= k <= |s|
    ensures k < |s| ==> s[k] == c
    decreases |s| - i
  {
    if i == |s| || s[i] == c then i else FindFrom(s, c, i + 1)
  }

  /** No c lies between i and FindFrom(s, c, i). */
  lemma {:induction false} FindFromFirst(s: string, c: char, i: nat)
    requires i <= |s|
    ensures forall j :: i <= j < FindFrom(s, c, i) ==> s[j] != c
    decreases |s| - i
  {
    if i < |s| && s[i] != c {
      FindFromFirst(s, c, i + 1);
    }
  }

  predicate IsKeyEnd(c: char)
  {
    c == Equals || c == Comma
  }

  /** The end of a key starting at i: the first '=' or ',' (|s| when none). */
  function KeyEnd(s: string, i: nat): (k: nat)
    requires i <= |s|
    ensures i <= k <= |s|
    ensures k < |s| ==> IsKeyEnd(s[k])
    decreases |s| - i
  {
    if i == |s| || IsKeyEnd(s[i]) then i else KeyEnd(s, i + 1)
  }

  /** No '=' or ',' lies inside a key. */
  lemma {:induction false} KeyEndClean(s: string, i: nat)
    requires i <= |s|
    ensures forall j :: i <= j < KeyEnd(s, i) ==> !IsKeyEnd(s[j])
    decreases |s| - i
  {
    if i < |s| && !IsKeyEnd(s[i]) {
      KeyEndClean(s, i + 1);
    }
  }

  /** The end of a value starting at i with quote state q: the first comma
      met outside double quotes, each '"' toggling the state (|s| when none). */
  function ValueEnd(s: string, i: nat, q: bool): (v: nat)
    requires i <= |s|
    ensures i <= v <= |s|
    ensures v < |s| ==> s[v] == Comma
    decreases |s| - i
  {
    if i == |s| || (s[i] == Comma && !q) then i
    else if s[i] == Quote then ValueEnd(s, i + 1, !q)
    else ValueEnd(s, i + 1, q)
  }

  /** The end of the token that starts at i: the separator or the end of the
      text that closes its key, or, once the key is closed by '=', the end of
      the value that follows. */
  function TokenEnd(s: string, i: nat): (e: nat)
    requires i <= |s|
    ensures KeyEnd(s, i) <= e <= |s|
    ensures e < |s| ==> s[e] == Comma
  {
    var k := KeyEnd(s, i);
    if k == |s| || s[k] == Comma then k else ValueEnd(s, k + 1, false)
  }

  /** A token whose key is closed by the text's end or a comma ends there. */
  lemma {:induction false} TokenEndKey(s: string, i: nat)
    requires i <= |s| && (KeyEnd(s, i) == |s| || s[KeyEnd(s, i)] == Comma)
    ensures TokenEnd(s, i) == KeyEnd(s, i)
  {
  }

  /** A token whose key is closed by '=' ends where its value ends. */
  lemma {:induction false} TokenEndValue(s: string, i: nat)
    requires i <= |s| && KeyEnd(s, i) < |s| && s[KeyEnd(s, i)] != Comma
    ensures TokenEnd(s, i) == ValueEnd(s, KeyEnd(s, i) + 1, false)
  {
  }

  /** An attribute as the scanner cuts it out: its key text and its value
      text, before the value is typed. */
  datatype Attr = Attr(key: string, text: string)

  /** The attribute pushed for the accumulated key and value: a bare token
      K (or K= with nothing after it) gives ("", K); =V gives ("", V); an
      empty token gives nothing. */
  function Pending(key: string, val: string): (attrs: seq<Attr>)
    ensures |attrs| <= 1
    ensures |attrs| == 0 <==> key == "" && val == ""
  {
    if key != "" && val == "" then [Attr("", key)]
    else if !(key == "" && val == "") then [Attr(key, val)]
    else []
  }

  /** ExtParameter(key, value) for each attribute in turn. */
  function Typed(attrs: seq<Attr>): (ps: seq<Param>)
    ensures |ps| == |attrs|
    decreases |attrs|
  {
    if |attrs| == 0 then [] else [MakeParam(attrs[0].key, attrs[0].text)] + Typed(attrs[1..])
  }

  /** The i-th parameter is the i-th attribute, typed. */
  lemma {:induction false} TypedAt(attrs: seq<Attr>, i: nat)
    requires i < |attrs|
    ensures Typed(attrs)[i] == MakeParam(attrs[i].key, attrs[i].text)
    decreases i
  {
    if i > 0 {
      TypedAt(attrs[1..], i - 1);
    }
  }

  /** Typing distributes over concatenation. */
  lemma {:induction false} TypedAppend(a: seq<Attr>, b: seq<Attr>)
    ensures Typed(a + b) == Typed(a) + Typed(b)
    decreases |a|
  {
    if |a| > 0 {
      assert (a + b)[1..] == a[1..] + b;
      TypedAppend(a[1..], b);
    } else {
      assert a + b == b;
    }
  }

  /** The parameters pushed when the accumulators are flushed. */
  function Flush(key: string, val: string): seq<Param>
  {
    Typed(Pending(key, val))
  }

  /** The attribute the token s[i..e] gives: its key and, after an '=', its
      value. */
  function Token(s: string, i: nat, e: nat): (attrs: seq<Attr>)
    requires i <= e <= |s|
    ensures |attrs| <= 1
  {
    var k := KeyEnd(s, i);
    if k < e then Pending(s[i..k], s[k + 1..e]) else Pending(s[i..e], "")
  }

  /** A token whose key is closed by '=' before its end. */
  lemma {:induction false} TokenWithValue(s: string, i: nat, e: nat)
    requires i <= e <= |s| && KeyEnd(s, i) < e
    ensures Token(s, i, e) == Pending(s[i..KeyEnd(s, i)], s[KeyEnd(s, i) + 1..e])
  {
  }

  /** A token with no '=' before its end. */
  lemma {:induction false} TokenWithoutValue(s: string, i: nat, e: nat)
    requires i <= e <= |s| && KeyEnd(s, i) >= e
    ensures Token(s, i, e) == Pending(s[i..e], "")
  {
  }

  /** The attributes of the list that starts at position i: one token after
      the other, each closed by a separator. */
  function Scan(s: string, i: nat): seq<Attr>
    requires i <= |s|
    decreases |s| - i
  {
    if i == |s| then []
    else
      var e := TokenEnd(s, i);
      if e == |s| then Token(s, i, e) else Token(s, i, e) + Scan(s, e + 1)
  }

  /** The attribute list of a directive: the list after its first ':', or
      the prior list, untouched, when the directive has no ':'. */
  function ExtAttributes(ext: string, prior: seq<Param>): seq<Param>
  {
    var c := FindFrom(ext, Colon, 0);
    if c == |ext| then prior else Typed(Scan(ext, c + 1))
  }

  // ---------------------------------------------------------------------------
  // Entry::m_parseExtData
  // ---------------------------------------------------------------------------

  /** m_parseExtData: finds the first ':' and, if there is one, clears the list
      and scans the rest character by character, with a key and a value
      accumulator and the comma-ignoring toggle for quoted values. */
  method ParseExtData(ext: string, prior: seq<Param>) returns (params: seq<Param>)
    ensures params == ExtAttributes(ext, prior)
  {
    var colonPos := 0;
    while colonPos < |ext| && ext[colonPos] != Colon
      invariant colonPos <= |ext|
      invariant FindFrom(ext, Colon, 0) == FindFrom(ext, Colon, colonPos)
    {
      colonPos := colonPos + 1;
    }
    params := prior;
    if colonPos < |ext| {
      var p := colonPos + 1;
      params := [];
      var key := "";
      var val := "";
      ghost var raw: seq<Attr> := [];
      ghost var result := Run(ext, p, [], "", "", false, false);
      while p < |ext|
        invariant colonPos + 1 <= p <= |ext|
        invariant params == Typed(raw)
        invariant Run(ext, p, raw, key, val, false, false) == result
        decreases |ext| - p
      {
        if ext[p] == Equals {
          p := p + 1;
          if p < |ext| {
            var ignoreComma := false;
            while p < |ext| && (ext[p] != Comma || ignoreComma)
              invariant p <= |ext|
              invariant Run(ext, p, raw, key, val, true, ignoreComma) == result
            {
              if ext[p] == Quote {
                ignoreComma := !ignoreComma;
              }
              val := val + [ext[p]];
              p := p + 1;
            }
          }
        } else if ext[p] == Comma {
          TypedAppend(raw, Pending(key, val));
          params := params + Flush(key, val);
          raw := raw + Pending(key, val);
          key := "";
          val := "";
          p := p + 1;
        } else {
          key := key + [ext[p]];
          p := p + 1;
        }
      }
      TypedAppend(raw, Pending(key, val));
      params := params + Flush(key, val);
      ScanByRun(ext, colonPos + 1);
    }
  }

  /** The character-by-character reading of m_parseExtData from position p,
      with the finished attributes, the two accumulators, whether a value
      is being read and whether commas are being ignored. */
  ghost function Run(s: string, p: nat, done: seq<Attr>, key: string, val: string,
                     inValue: bool, ignoreComma: bool): seq<Attr>
    requires p <= |s|
    decreases |s| - p, if inValue then 1 else 0
  {
    if p == |s| then done + Pending(key, val)
    else if inValue then
      if s[p] == Comma && !ignoreComma then Run(s, p, done, key, val, false, false)
      else Run(s, p + 1, done, key, val + [s[p]], true,
               if s[p] == Quote then !ignoreComma else ignoreComma)
    else if s[p] == Equals then Run(s, p + 1, done, key, val, true, false)
    else if s[p] == Comma then Run(s, p + 1, done + Pending(key, val), "", "", false, false)
    else Run(s, p + 1, done, key + [s[p]], val, false, false)
  }

  /** The character-by-character reading and the token grammar agree. */
  lemma {:induction false} ScanByRun(s: string, start: nat)
    requires start <= |s|
    ensures Run(s, start, [], "", "", false, false) == Scan(s, start)
  {
    KeyPhase(s, start, start, [], "");
    PrependEmpty(Scan(s, start));
  }

  lemma {:induction false} PrependEmpty<T>(a: seq<T>)
    ensures [] + a == a
  {
  }

  lemma {:induction false} AppendAssoc<T>(a: seq<T>, b: seq<T>, c: seq<T>)
    ensures a + b + c == a + (b + c)
  {
  }

  lemma {:induction false} SliceExtend(s: string, a: nat, b: nat)
    requires a <= b < |s|
    ensures s[a..b + 1] == s[a..b] + [s[b]]
  {
  }

  /** Scan at i when its first token closes the text. */
  lemma {:induction false} ScanAtLast(s: string, i: nat)
    requires i < |s| && TokenEnd(s, i) == |s|
    ensures Scan(s, i) == Token(s, i, |s|)
  {
  }

  /** Scan at i when its first token is closed by the comma e. */
  lemma {:induction false} ScanAtSeparator(s: string, i: nat, e: nat)
    requires i < |s| && e < |s| && TokenEnd(s, i) == e
    ensures Scan(s, i) == Token(s, i, e) + Scan(s, e + 1)
  {
    var r := Scan(s, i);
    assert r == Token(s, i, e) + Scan(s, e + 1);
  }

  /** Scan at ks when its first token is a bare key closed by the comma at p. */
  lemma {:induction false} ScanKeyToken(s: string, ks: nat, p: nat)
    requires ks <= p < |s| && p == KeyEnd(s, ks) && s[p] == Comma
    ensures Scan(s, ks) == Pending(s[ks..p], "") + Scan(s, p + 1)
  {
    TokenEndKey(s, ks);
    ScanAtSeparator(s, ks, p);
    TokenWithoutValue(s, ks, p);
  }

  /** Scan at ks when its first token is key=value, the key closed at k and
      the value by the comma at p. */
  lemma {:induction false} ScanValueToken(s: string, ks: nat, k: nat, p: nat)
    requires ks <= k < |s| && KeyEnd(s, ks) == k && s[k] != Comma
    requires k + 1 <= p < |s| && ValueEnd(s, k + 1, false) == p
    ensures Scan(s, ks) == Pending(s[ks..k], s[k + 1..p]) + Scan(s, p + 1)
  {
    TokenEndValue(s, ks);
    ScanAtSeparator(s, ks, p);
    TokenWithValue(s, ks, p);
  }

  /** Reading the key of the token that starts at ks, up to p. */
  lemma {:induction false} KeyPhase(s: string, ks: nat, p: nat, prev: seq<Attr>, key: string)
    requires ks <= |s| && ks <= p <= KeyEnd(s, ks) && key == s[ks..p]
    ensures Run(s, p, prev, key, "", false, false) == prev + Scan(s, ks)
    decreases |s| - p, 2
  {
    if p == |s| {
      if ks < |s| {
        ScanAtLast(s, ks);
        assert s[ks..|s|] == key;
        assert Token(s, ks, |s|) == Pending(key, "");
      }
    } else if p < KeyEnd(s, ks) {
      KeyEndClean(s, ks);
      SliceExtend(s, ks, p);
      assert Run(s, p, prev, key, "", false, false) == Run(s, p + 1, prev, key + [s[p]], "", false, false);
      KeyPhase(s, ks, p + 1, prev, key + [s[p]]);
    } else if s[p] == Comma {
      KeyAtComma(s, ks, p, prev, key);
    } else {
      KeyAtEquals(s, ks, p, prev, key);
    }
  }

  /** A comma outside a value flushes the accumulators and starts a token. */
  lemma {:induction false} RunAtComma(s: string, p: nat, prev: seq<Attr>, key: string, val: string)
    requires p < |s| && s[p] == Comma
    ensures Run(s, p, prev, key, val, false, false) == prev + Pending(key, val) + Scan(s, p + 1)
    decreases |s| - p, 0
  {
    KeyPhase(s, p + 1, p + 1, prev + Pending(key, val), "");
  }

  /** The key of the token at ks closed by the comma at p. */
  lemma {:induction false} KeyAtComma(s: string, ks: nat, p: nat, prev: seq<Attr>, key: string)
    requires ks <= p < |s| && p == KeyEnd(s, ks) && key == s[ks..p] && s[p] == Comma
    ensures Run(s, p, prev, key, "", false, false) == prev + Scan(s, ks)
    decreases |s| - p, 1
  {
    RunAtComma(s, p, prev, key, "");
    AppendAssoc(prev, Pending(key, ""), Scan(s, p + 1));
    ScanKeyToken(s, ks, p);
  }

  /** The key of the token at ks closed by the '=' at p. */
  lemma {:induction false} KeyAtEquals(s: string, ks: nat, p: nat, prev: seq<Attr>, key: string)
    requires ks <= p < |s| && p == KeyEnd(s, ks) && key == s[ks..p] && s[p] != Comma
    ensures Run(s, p, prev, key, "", false, false) == prev + Scan(s, ks)
    decreases |s| - p, 1
  {
    assert s[p] == Equals;
    assert Run(s, p, prev, key, "", false, false) == Run(s, p + 1, prev, key, "", true, false);
    assert s[p + 1..p + 1] == "";
    ValuePhase(s, ks, p, p + 1, false, prev, key, "");
  }

  /** Reading the value after the '=' at k, up to p in quote state q. */
  lemma {:induction false} ValuePhase(s: string, ks: nat, k: nat, p: nat, q: bool, prev: seq<Attr>,
                                      key: string, val: string)
    requires ks <= k < |s| && KeyEnd(s, ks) == k && s[k] == Equals && key == s[ks..k]
    requires k + 1 <= p <= |s| && ValueEnd(s, k + 1, false) == ValueEnd(s, p, q)
    requires val == s[k + 1..p]
    ensures Run(s, p, prev, key, val, true, q) == prev + Scan(s, ks)
    decreases |s| - p, 2
  {
    if p == |s| {
      ScanAtLast(s, ks);
      assert Token(s, ks, |s|) == Pending(key, val);
    } else if s[p] == Comma && !q {
      ValueAtComma(s, ks, k, p, prev, key, val);
    } else {
      SliceExtend(s, k + 1, p);
      var q' := if s[p] == Quote then !q else q;
      assert Run(s, p, prev, key, val, true, q) == Run(s, p + 1, prev, key, val + [s[p]], true, q');
      ValuePhase(s, ks, k, p + 1, q', prev, key, val + [s[p]]);
    }
  }

  /** The value after the '=' at k closed by the comma at p. */
  lemma {:induction false} ValueAtComma(s: string, ks: nat, k: nat, p: nat, prev: seq<Attr>,
                                        key: string, val: string)
    requires ks <= k < |s| && KeyEnd(s, ks) == k && s[k] == Equals && key == s[ks..k]
    requires k + 1 <= p < |s| && ValueEnd(s, k + 1, false) == p && s[p] == Comma
    requires val == s[k + 1..p]
    ensures Run(s, p, prev, key, val, true, false) == prev + Scan(s, ks)
    decreases |s| - p, 1
  {
    assert Run(s, p, prev, key, val, true, false) == Run(s, p, prev, key, val, false, false);
    RunAtComma(s, p, prev, key, val);
    AppendAssoc(prev, Pending(key, val), Scan(s, p + 1));
    ScanValueToken(s, ks, k, p);
  }
}

/** Queries over a parameter list (ExtParamContainer::contains and ::get),
    and what the scanner guarantees about the lists it builds. */
module M3uAttributeLists {
  import opened Wrappers
  import opened M3uAttributes

  /** Whether some parameter carries the key. */
  predicate HasKey(ps: seq<Param>, key: string)
  {
    exists i :: 0 <= i < |ps| && ps[i].key == key
  }

  /** The index of the first parameter at or after i that carries the key,
      |ps| when there is none. */
  function FirstWithKey(ps: seq<Param>, key: string, i: nat): (j: nat)
    requires i <= |ps|
    ensures i <= j <= |ps|
    ensures j < |ps| ==> ps[j].key == key
    ensures forall m :: i <= m < j ==> ps[m].key != key
    decreases |ps| - i
  {
    if i == |ps| || ps[i].key == key then i else FirstWithKey(ps, key, i + 1)
  }

  /** ExtParamContainer::contains: scans for the key and stops at the first
      match. */
  method Contains(ps: seq<Param>, key: string) returns (r: bool)
    ensures r <==> HasKey(ps, key)
  {
    r := false;
    var i := 0;
    while i < |ps|
      invariant i <= |ps|
      invariant !r ==> forall m :: 0 <= m < i ==> ps[m].key != key
      invariant r ==> HasKey(ps, key)
    {
      if ps[i].key == key {
        r := true;
        break;
      }
      i := i + 1;
    }
  }

  /** The message of the out_of_range error get throws for a missing key. */
  function NoParameterMessage(key: string): string
  {
    "no \"" + key + "\" parameter"
  }

  /** ExtParamContainer::get: the first parameter that carries the key, or
      the out_of_range error when none does. */
  method Get(ps: seq<Param>, key: string) returns (r: Result<Param, string>)
    ensures r.Success? <==> HasKey(ps, key)
    ensures r.Success? ==> r.value == ps[FirstWithKey(ps, key, 0)] && r.value.key == key
    ensures r.Failure? ==> r.error == NoParameterMessage(key)
  {
    var i := 0;
    while i < |ps|
      invariant i <= |ps|
      invariant FirstWithKey(ps, key, 0) == FirstWithKey(ps, key, i)
    {
      if ps[i].key == key {
        return Success(ps[i]);
      }
      i := i + 1;
    }
    return Failure(NoParameterMessage(key));
  }

  // ---------------------------------------------------------------------------
  // What the scanner builds
  // ---------------------------------------------------------------------------

  /** A key without '=' or ',' and a non-empty value text. */
  predicate CleanAttr(a: Attr)
  {
    a.text != "" && forall m :: 0 <= m < |a.key| ==> !IsKeyEnd(a.key[m])
  }

  predicate AllClean(attrs: seq<Attr>)
  {
    forall j :: 0 <= j < |attrs| ==> CleanAttr(attrs[j])
  }

  /** Every attribute the scanner cuts out has a clean key and a value text. */
  lemma {:induction false} ScanClean(s: string, i: nat)
    requires i <= |s|
    ensures AllClean(Scan(s, i))
    decreases |s| - i
  {
    if i < |s| {
      var e := TokenEnd(s, i);
      KeyEndClean(s, i);
      var k := KeyEnd(s, i);
      assert AllClean(Token(s, i, e)) by {
        if k < e {
          assert forall m :: 0 <= m < |s[i..k]| ==> s[i..k][m] == s[i + m];
        } else {
          assert forall m :: 0 <= m < |s[i..e]| ==> s[i..e][m] == s[i + m];
        }
      }
      if e < |s| {
        ScanClean(s, e + 1);
        CleanAppend(Token(s, i, e), Scan(s, e + 1));
        ScanAtSeparator(s, i, e);
      } else {
        ScanAtLast(s, i);
      }
    }
  }

  lemma {:induction false} CleanAppend(a: seq<Attr>, b: seq<Attr>)
    requires AllClean(a) && AllClean(b)
    ensures AllClean(a + b)
  {
    assert forall j :: 0 <= j < |a + b| ==> (a + b)[j] == if j < |a| then a[j] else b[j - |a|];
  }

  /** A parameter built from a clean attribute: valid, typed, and keyed
      without separators. */
  predicate WellTyped(p: Param)
  {
    p.valid && p.value.kind != Unknown && forall m :: 0 <= m < |p.key| ==> !IsKeyEnd(p.key[m])
  }

  /** Every parameter read from a directive with a ':' is valid, has a
      known type and a key without '=' or ','; without a ':' the directive
      keeps the parameters it had. */
  lemma {:induction false} ExtAttributesShape(ext: string, prior: seq<Param>)
    ensures (forall i :: 0 <= i < |ext| ==> ext[i] != Colon) ==> ExtAttributes(ext, prior) == prior
    ensures (exists i :: 0 <= i < |ext| && ext[i] == Colon) ==>
      forall j :: 0 <= j < |ExtAttributes(ext, prior)| ==> WellTyped(ExtAttributes(ext, prior)[j])
  {
    var c := FindFrom(ext, Colon, 0);
    FindFromFirst(ext, Colon, 0);
    if c < |ext| {
      var attrs := Scan(ext, c + 1);
      ScanClean(ext, c + 1);
      forall j | 0 <= j < |attrs|
        ensures WellTyped(Typed(attrs)[j])
      {
        TypedAt(attrs, j);
      }
    }
  }

  lemma {:induction false} SliceIs(s: string, i: nat, j: nat, t: string)
    requires i <= j <= |s| && j - i == |t|
    requires forall m :: 0 <= m < |t| ==> s[i + m] == t[m]
    ensures s[i..j] == t
  {
  }

  /** A directive whose list has a quoted value with a comma in it, a
      number and a bare word. */
  const ExampleDirective: string := "#X:A=\"x,y\",B=2,C"

  /** The comma between the quotes does not close the first value. */
  lemma ExampleQuotedComma()
    ensures ValueEnd(ExampleDirective, 5, false) == 10
  {
    var s := ExampleDirective;
    assert ValueEnd(s, 10, false) == 10;
    assert ValueEnd(s, 9, true) == 10;
    assert ValueEnd(s, 8, true) == 10;
    assert ValueEnd(s, 7, true) == 10;
    assert ValueEnd(s, 6, true) == 10;
  }

  /** The scanner cuts the example at the two commas outside quotes: the
      first token runs over the quoted comma, */
  lemma ExampleFirstToken()
    ensures Scan(ExampleDirective, 3) == [Attr("A", "\"x,y\"")] + Scan(ExampleDirective, 11)
  {
    var s := ExampleDirective;
    assert KeyEnd(s, 3) == 4;
    ExampleQuotedComma();
    SliceIs(s, 3, 4, "A");
    SliceIs(s, 5, 10, "\"x,y\"");
    ScanValueToken(s, 3, 4, 10);
  }

  /** the second stops at the next comma, */
  lemma ExampleSecondToken()
    ensures Scan(ExampleDirective, 11) == [Attr("B", "2")] + Scan(ExampleDirective, 15)
  {
    var s := ExampleDirective;
    assert KeyEnd(s, 11) == 12 && ValueEnd(s, 13, false) == 14;
    SliceIs(s, 11, 12, "B");
    SliceIs(s, 13, 14, "2");
    assert Token(s, 11, 14) == [Attr("B", "2")];
    ScanAtSeparator(s, 11, 14);
  }

  /** and the last is a bare word. */
  lemma ExampleLastToken()
    ensures Scan(ExampleDirective, 15) == [Attr("", "C")]
  {
    var s := ExampleDirective;
    assert KeyEnd(s, 15) == 16;
    SliceIs(s, 15, 16, "C");
    assert Token(s, 15, 16) == [Attr("", "C")];
    ScanAtLast(s, 15);
  }

  /** A quoted value loses its quotes, a number is an integer and a word a
      symbol. */
  lemma ExampleValues()
    ensures ParseValue("\"x,y\"") == ParamValue(QuotedString, "x,y")
    ensures ParseValue("2") == ParamValue(Integer, "2")
    ensures ParseValue("C") == ParamValue(Symbol, "C")
  {
    var v := "\"x,y\"";
    SliceIs(v, 1, 4, "x,y");
    UnescapeNoQuote("x,y");
    assert !IsDigit("C"[0]);
    assert !IsInteger("C");
  }

  /** The parameters of the example directive. */
  lemma ExampleAttributes()
    ensures ExtAttributes(ExampleDirective, []) ==
      [ Param("A", ParamValue(QuotedString, "x,y"), true),
        Param("B", ParamValue(Integer, "2"), true),
        Param("", ParamValue(Symbol, "C"), true) ]
  {
    assert FindFrom(ExampleDirective, Colon, 0) == 2;
    ExampleFirstToken();
    ExampleSecondToken();
    ExampleLastToken();
    var a, b, c := Attr("A", "\"x,y\""), Attr("B", "2"), Attr("", "C");
    assert Scan(ExampleDirective, 3) == [a, b, c];
    TypedThree(a, b, c);
    ExampleValues();
  }

  lemma {:induction false} TypedThree(a: Attr, b: Attr, c: Attr)
    ensures Typed([a, b, c]) == [MakeParam(a.key, a.text), MakeParam(b.key, b.text), MakeParam(c.key, c.text)]
  {
    assert [c][1..] == [];
    assert Typed([c]) == [MakeParam(c.key, c.text)];
    assert [b, c][1..] == [c];
    assert Typed([b, c]) == [MakeParam(b.key, b.text)] + Typed([c]);
    assert [a, b, c][1..] == [b, c];
    assert Typed([a, b, c]) == [MakeParam(a.key, a.text)] + Typed([b, c]);
  }
}

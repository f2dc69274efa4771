/** The small helpers of the middleware: base-N rendering of an unsigned
    64-bit value, ASCII upper-casing and the two counter classes. */
module Util {

  /** size_t and uint64_t are 64 bits wide; their arithmetic wraps at this modulus. */
  const SizeMod: nat := 0x1_0000_0000_0000_0000

  /** The range of uint64_t (and of size_t on the 64-bit targets). */
  predicate IsUint64(x: int)
  {
    0 <= x < SizeMod
  }

  // ---------------------------------------------------------------------------
  // to_string(val, base, digits)
  // ---------------------------------------------------------------------------

  /** Dividing a positive number by the base leaves a smaller one. */
  lemma {:induction false} DivShrinks(v: nat, base: nat)
    requires base >= 2 && v > 0
    ensures 0 <= v / base < v
    ensures v >= base ==> v / base > 0
  {
    var q, m := v / base, v % base;
    EuclidSplit(v, base);
    assert 0 <= m < base;
    if q < 0 {
      MulNegative(q, base);
    } else {
      MulAtLeastDouble(q, base);
    }
  }

  lemma {:induction false} MulAtLeastDouble(q: nat, b: nat)
    requires b >= 2
    ensures q * b >= 2 * q
  {
    var d: nat := b - 2;
    assert q * b == q * 2 + q * d;
  }

  lemma {:induction false} MulNegative(q: int, b: nat)
    requires q < 0 && b >= 2
    ensures q * b + b <= 0
  {
    var p: nat := -q - 1;
    assert q * b + b == 0 - p * b;
  }

  /** The numeral of a positive v in base, most significant digit first; zero
      spells as the empty string. */
  function Spell(v: nat, base: nat, digits: string): (r: string)
    requires 2 <= base <= |digits|
    ensures |r| == 0 <==> v == 0
    decreases v
  {
    if v == 0 then ""
    else
      DivShrinks(v, base);
      Spell(v / base, base, digits) + [digits[v % base]]
  }

  /** The text to_string produces: the zero digit alone for 0, else the numeral. */
  function Numeral(val: nat, base: nat, digits: string): string
    requires 2 <= base <= |digits|
  {
    if val == 0 then [digits[0]] else Spell(val, base, digits)
  }

  /** No character occurs twice in the digit table, so a rendered digit can be
      read back. */
  predicate DistinctDigits(digits: string)
  {
    forall i, j :: 0 <= i < j < |digits| ==> digits[i] != digits[j]
  }

  /** The position of `c` in the digit table (|digits| when absent). */
  function IndexOf(digits: string, c: char): (k: nat)
    ensures k <= |digits|
    ensures k < |digits| ==> digits[k] == c
    ensures forall j :: 0 <= j < k ==> digits[j] != c
  {
    if |digits| == 0 then 0
    else if digits[0] == c then 0
    else 1 + IndexOf(digits[1..], c)
  }

  /** Reads a numeral back: each character stands for its position in the
      digit table. */
  function ReadBack(r: string, base: nat, digits: string): nat
  {
    if |r| == 0 then 0
    else ReadBack(r[..|r| - 1], base, digits) * base + IndexOf(digits, r[|r| - 1])
  }

  /** With a table free of repeats, a numeral reads back as its value. */
  lemma {:induction false} SpellReadsBack(v: nat, base: nat, digits: string)
    requires 2 <= base <= |digits|
    requires DistinctDigits(digits)
    ensures ReadBack(Spell(v, base, digits), base, digits) == v
    decreases v
  {
    if v > 0 {
      DivShrinks(v, base);
      EuclidSplit(v, base);
      var q, m := v / base, v % base;
      var front := Spell(q, base, digits);
      var r := Spell(v, base, digits);
      assert r == front + [digits[m]];
      assert r[..|r| - 1] == front;
      SpellReadsBack(q, base, digits);
      assert IndexOf(digits, digits[m]) == m;
      assert ReadBack(r, base, digits) == q * base + m;
    }
  }

  lemma {:induction false} EuclidSplit(v: nat, base: nat)
    requires base >= 2
    ensures v == (v / base) * base + v % base && 0 <= v % base < base
  {
  }

  /** With a table free of repeats, the numeral of a positive value does not
      start with the zero digit. */
  lemma {:induction false} SpellLeadingDigit(v: nat, base: nat, digits: string)
    requires 2 <= base <= |digits|
    requires DistinctDigits(digits)
    requires v > 0
    ensures Spell(v, base, digits)[0] != digits[0]
    decreases v
  {
    DivShrinks(v, base);
    var q := v / base;
    if q > 0 {
      SpellLeadingDigit(q, base, digits);
    } else {
      assert v % base == v;
    }
  }

  /** omw_::to_string: renders val in base, prepending the lowest digit on
      each turn of the loop. */
  method ToString(val: nat, base: nat, digits: string) returns (r: string)
    requires 2 <= base <= |digits|
    ensures r == Numeral(val, base, digits)
  {
    r := "";
    if val == 0 {
      r := r + [digits[0]];
    }
    var v: nat := val;
    while v != 0
      invariant v <= val
      invariant val == 0 ==> r == [digits[0]]
      invariant val > 0 ==> Spell(val, base, digits) == Spell(v, base, digits) + r
      decreases v
    {
      SpellStep(v, base, digits, r);
      r := [digits[v % base]] + r;
      v := v / base;
    }
  }

  /** One turn of the to_string loop moves the lowest digit of v to the front
      of the text produced so far. */
  lemma {:induction false} SpellStep(v: nat, base: nat, digits: string, r: string)
    requires 2 <= base <= |digits|
    requires v > 0
    ensures 0 <= v / base < v
    ensures Spell(v, base, digits) + r == Spell(v / base, base, digits) + ([digits[v % base]] + r)
  {
    DivShrinks(v, base);
  }

  /** What to_string renders reads back as val in base, and for a positive
      value its first character is not the zero digit. */
  lemma {:induction false} NumeralReadsBack(val: nat, base: nat, digits: string)
    requires 2 <= base <= |digits|
    requires DistinctDigits(digits)
    ensures ReadBack(Numeral(val, base, digits), base, digits) == val
    ensures val == 0 ==> Numeral(val, base, digits) == [digits[0]]
    ensures val > 0 ==> Numeral(val, base, digits)[0] != digits[0]
  {
    if val == 0 {
      assert Numeral(val, base, digits)[..0] == "";
      assert IndexOf(digits, digits[0]) == 0;
    } else {
      SpellReadsBack(val, base, digits);
      SpellLeadingDigit(val, base, digits);
    }
  }

  /** Every character of a numeral comes from the digit table. */
  lemma {:induction false} SpellInTable(v: nat, base: nat, digits: string)
    requires 2 <= base <= |digits|
    ensures forall k :: 0 <= k < |Spell(v, base, digits)| ==> Spell(v, base, digits)[k] in digits
    decreases v
  {
    if v > 0 {
      DivShrinks(v, base);
      SpellInTable(v / base, base, digits);
      var front := Spell(v / base, base, digits);
      assert Spell(v, base, digits) == front + [digits[v % base]];
    }
  }

  /** What to_string renders is non-empty and drawn from the digit table. */
  lemma {:induction false} NumeralInTable(val: nat, base: nat, digits: string)
    requires 2 <= base <= |digits|
    ensures |Numeral(val, base, digits)| > 0
    ensures forall k :: 0 <= k < |Numeral(val, base, digits)| ==> Numeral(val, base, digits)[k] in digits
  {
    if val > 0 {
      SpellInTable(val, base, digits);
    }
  }

  // ---------------------------------------------------------------------------
  // toUpper(str)
  // ---------------------------------------------------------------------------

  predicate IsAsciiLower(c: char)
  {
    'a' <= c <= 'z'
  }

  /** One character of omw_::toUpper: an ASCII lower-case letter loses 32,
      everything else stays. */
  function UpperAscii(c: char): (u: char)
    ensures IsAsciiLower(c) ==> 'A' <= u <= 'Z' && u as int - 'A' as int == c as int - 'a' as int
    ensures !IsAsciiLower(c) ==> u == c
    ensures !IsAsciiLower(u)
  {
    if IsAsciiLower(c) then (c as int - 32) as char else c
  }

  /** The upper-cased string, character by character. */
  function Upper(s: string): (r: string)
    ensures |r| == |s|
    ensures forall k :: 0 <= k < |s| ==> r[k] == UpperAscii(s[k])
  {
    seq(|s|, k requires 0 <= k < |s| => UpperAscii(s[k]))
  }

  /** omw_::toUpper: upper-cases a copy of the string in place. */
  method ToUpper(s: string) returns (r: string)
    ensures r == Upper(s)
  {
    r := s;
    for i := 0 to |r|
      invariant |r| == |s|
      invariant forall k :: 0 <= k < i ==> r[k] == UpperAscii(s[k])
      invariant forall k :: i <= k < |s| ==> r[k] == s[k]
    {
      if 'a' <= r[i] <= 'z' {
        r := r[i := (r[i] as int - 32) as char];
      }
    }
  }

  /** Upper-casing is idempotent and leaves no ASCII lower-case letter. */
  lemma {:induction false} UpperIdempotent(s: string)
    ensures Upper(Upper(s)) == Upper(s)
    ensures forall k :: 0 <= k < |s| ==> !IsAsciiLower(Upper(s)[k])
  {
  }

  // ---------------------------------------------------------------------------
  // FileCounter and ResultCounter
  // ---------------------------------------------------------------------------

  /** util::FileCounter: counts of files seen and files copied (size_t). */
  class FileCounter {
    var total: nat
    var copied: nat

    ghost predicate Valid()
      reads this
    {
      total < SizeMod && copied < SizeMod
    }

    constructor ()
      ensures Valid()
      ensures total == 0 && copied == 0
    {
      total, copied := 0, 0;
    }

    method Add(t: nat, c: nat)
      requires Valid() && t < SizeMod && c < SizeMod
      modifies this
      ensures Valid()
      ensures total == (old(total) + t) % SizeMod
      ensures copied == (old(copied) + c) % SizeMod
    {
      total := (total + t) % SizeMod;
      copied := (copied + c) % SizeMod;
    }

    /** add(const FileCounter&): adds the other counter's two values. */
    method AddCounter(other: FileCounter)
      requires Valid() && other.Valid()
      modifies this
      ensures Valid()
      ensures total == (old(total) + old(other.total)) % SizeMod
      ensures copied == (old(copied) + old(other.copied)) % SizeMod
    {
      Add(other.total, other.copied);
    }

    method AddTotal(v: nat := 1)
      requires Valid() && v < SizeMod
      modifies this
      ensures Valid()
      ensures total == (old(total) + v) % SizeMod
      ensures copied == old(copied)
    {
      total := (total + v) % SizeMod;
    }

    method AddCopied(v: nat := 1)
      requires Valid() && v < SizeMod
      modifies this
      ensures Valid()
      ensures copied == (old(copied) + v) % SizeMod
      ensures total == old(total)
    {
      copied := (copied + v) % SizeMod;
    }
  }

  /** util::ResultCounter: error and warning counts (size_t). */
  class ResultCounter {
    var errors: nat
    var warnings: nat

    ghost predicate Valid()
      reads this
    {
      errors < SizeMod && warnings < SizeMod
    }

    constructor (e: nat := 0, w: nat := 0)
      requires e < SizeMod && w < SizeMod
      ensures Valid()
      ensures errors == e && warnings == w
    {
      errors, warnings := e, w;
    }

    method IncErrors()
      requires Valid()
      modifies this
      ensures Valid()
      ensures errors == (old(errors) + 1) % SizeMod
      ensures warnings == old(warnings)
    {
      errors := (errors + 1) % SizeMod;
    }

    method IncWarnings()
      requires Valid()
      modifies this
      ensures Valid()
      ensures warnings == (old(warnings) + 1) % SizeMod
      ensures errors == old(errors)
    {
      warnings := (warnings + 1) % SizeMod;
    }
  }
}

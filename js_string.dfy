/** The JavaScript string built-ins the task manager relies on: `trim`,
    `toLowerCase`, `includes`, `parseInt`, `String(n)`, `padEnd`, `repeat`
    and `Array.prototype.join` over strings. */
module JsString {
  import opened Wrappers

  /** The characters that `String.prototype.trim`, `parseInt` and the regular
      expression class `\s` treat as white space (WhiteSpace and
      LineTerminator of ECMAScript). */
  predicate IsSpace(c: char) {
    var n := c as int;
    (0x09 <= n <= 0x0D) || n == 0x20 || n == 0xA0 || n == 0x1680 ||
    (0x2000 <= n <= 0x200A) || n == 0x2028 || n == 0x2029 || n == 0x202F ||
    n == 0x205F || n == 0x3000 || n == 0xFEFF
  }

  predicate AllSpace(s: string) {
    forall i :: 0 <= i < |s| ==> IsSpace(s[i])
  }

  /** `trimStart`: the longest suffix of `s` that does not begin with white space. */
  function TrimStart(s: string): (r: string)
    ensures |r| <= |s| && r == s[|s| - |r|..]
    ensures AllSpace(s[..|s| - |r|])
    ensures r != [] ==> !IsSpace(r[0])
  {
    if |s| > 0 && IsSpace(s[0]) then
      var r := TrimStart(s[1..]);
      assert s[1..][..|s| - 1 - |r|] == s[1..|s| - |r|];
      r
    else
      s
  }

  /** `trimEnd`: the longest prefix of `s` that does not end with white space. */
  function TrimEnd(s: string): (r: string)
    ensures |r| <= |s| && r == s[..|r|]
    ensures AllSpace(s[|r|..])
    ensures r != [] ==> !IsSpace(r[|r| - 1])
  {
    if |s| > 0 && IsSpace(s[|s| - 1]) then
      var r := TrimEnd(s[..|s| - 1]);
      assert s[..|s| - 1][|r|..] == s[|r|..|s| - 1];
      assert forall i :: |r| <= i < |s| - 1 ==> s[i] == s[|r|..|s| - 1][i - |r|];
      r
    else
      assert s[..|s|] == s && s[|s|..] == [];
      s
  }

  /** `String.prototype.trim`. */
  function Trim(s: string): string {
    TrimEnd(TrimStart(s))
  }

  lemma AllSpaceTrimStart(s: string)
    requires AllSpace(s)
    ensures TrimStart(s) == []
  {
  }

  lemma NotAllSpaceTrim(s: string, i: int)
    requires 0 <= i < |s| && !IsSpace(s[i])
    ensures Trim(s) != []
  {
    var t := TrimStart(s);
    forall k | 0 <= k < |s| - |t| ensures IsSpace(s[k]) {
      assert s[..|s| - |t|][k] == s[k];
    }
    assert t != [];
    var r := TrimEnd(t);
    forall k | |r| <= k < |t| ensures IsSpace(t[k]) {
      assert t[|r|..][k - |r|] == t[k];
    }
  }

  /** A string is empty after trimming exactly when it consists of white space. */
  lemma TrimEmptyIff(s: string)
    ensures Trim(s) == [] <==> AllSpace(s)
  {
    if AllSpace(s) {
      AllSpaceTrimStart(s);
    } else {
      var i :| 0 <= i < |s| && !IsSpace(s[i]);
      NotAllSpaceTrim(s, i);
    }
  }

  /** `trimStart` strips exactly the white space before the first character
      that is not white space. */
  lemma TrimStartAt(s: string, i: nat)
    requires i < |s| && !IsSpace(s[i]) && AllSpace(s[..i])
    ensures TrimStart(s) == s[i..]
  {
    var t := TrimStart(s);
    var k := |s| - |t|;
    forall j | 0 <= j < k
      ensures IsSpace(s[j])
    {
      assert s[..k][j] == s[j];
    }
    forall j | 0 <= j < i
      ensures IsSpace(s[j])
    {
      assert s[..i][j] == s[j];
    }
    assert k < |s| ==> t[0] == s[k];
  }

  /** `trimEnd` strips exactly the white space after the last character that
      is not white space. */
  lemma TrimEndAt(s: string, j: nat)
    requires 0 < j <= |s| && !IsSpace(s[j - 1]) && AllSpace(s[j..])
    ensures TrimEnd(s) == s[..j]
  {
    var r := TrimEnd(s);
    if |r| < j {
      assert false;
    } else if |r| > j {
      assert false;
    }
  }

  /** The slices of a suffix are slices of the whole. */
  lemma SuffixSlices<T>(s: seq<T>, i: nat, j: nat)
    requires i < j <= |s|
    ensures s[i..][..j - i] == s[i..j] && s[i..][j - i..] == s[j..] && s[i..][j - i - 1] == s[j - 1]
  {
  }

  /** Trimming strips exactly the white space around the first and the last
      character that is not white space. */
  lemma TrimInner(s: string, i: nat, j: nat)
    requires i < j <= |s| && !IsSpace(s[i]) && !IsSpace(s[j - 1])
    requires AllSpace(s[..i]) && AllSpace(s[j..])
    ensures Trim(s) == s[i..j]
  {
    TrimStartAt(s, i);
    SuffixSlices(s, i, j);
    TrimEndAt(s[i..], j - i);
    calc {
      Trim(s);
      TrimEnd(TrimStart(s));
      TrimEnd(s[i..]);
      s[i..][..j - i];
      s[i..j];
    }
  }

  /** A string that neither begins nor ends with white space is its own
      trimmed form. */
  lemma TrimUntouched(s: string)
    requires s != [] && !IsSpace(s[0]) && !IsSpace(s[|s| - 1])
    ensures Trim(s) == s
  {
    assert s[..0] == [] && s[|s|..] == [];
    TrimInner(s, 0, |s|);
    assert s[0..|s|] == s;
  }

  /** Trimming leaves a string with no white space at either end. */
  lemma TrimmedEnds(s: string)
    ensures var r := Trim(s); r != [] ==> !IsSpace(r[0]) && !IsSpace(r[|r| - 1])
  {
    var t := TrimStart(s);
    var r := TrimEnd(t);
    if r != [] {
      assert r[0] == t[0];
    }
  }

  /** `toLowerCase`, on the ASCII letters. */
  function LowerChar(c: char): (r: char)
    ensures 'A' <= c <= 'Z' ==> r as int == c as int + 32
    ensures !('A' <= c <= 'Z') ==> r == c
  {
    if 'A' <= c <= 'Z' then (c as int + 32) as char else c
  }

  function Lower(s: string): (r: string)
    ensures |r| == |s|
    ensures forall i :: 0 <= i < |s| ==> r[i] == LowerChar(s[i])
  {
    if s == [] then [] else [LowerChar(s[0])] + Lower(s[1..])
  }

  /** Lower-casing twice is lower-casing once. */
  lemma LowerIdempotent(s: string)
    ensures Lower(Lower(s)) == Lower(s)
  {
    var l := Lower(s);
    assert forall i :: 0 <= i < |s| ==> Lower(l)[i] == LowerChar(LowerChar(s[i]));
  }

  /** `String.prototype.includes`: `needle` occurs in `hay` at some position. */
  predicate Includes(hay: string, needle: string)
    decreases |hay|
  {
    needle <= hay || (|hay| > 0 && Includes(hay[1..], needle))
  }

  /** `needle` occurs in `hay` starting at index `i`. */
  predicate OccursAt(hay: string, needle: string, i: int) {
    0 <= i <= |hay| - |needle| && hay[i..i + |needle|] == needle
  }

  lemma {:induction false} IncludesAt(hay: string, needle: string, i: int)
    requires OccursAt(hay, needle, i)
    ensures Includes(hay, needle)
    decreases i
  {
    if i > 0 {
      assert hay[1..][i - 1..i - 1 + |needle|] == hay[i..i + |needle|];
      assert OccursAt(hay[1..], needle, i - 1);
      IncludesAt(hay[1..], needle, i - 1);
    } else {
      assert needle <= hay;
    }
  }

  lemma {:induction false} IncludesWitness(hay: string, needle: string) returns (i: int)
    requires Includes(hay, needle)
    ensures OccursAt(hay, needle, i)
    decreases |hay|
  {
    if needle <= hay {
      assert hay[0..|needle|] == needle;
      i := 0;
    } else {
      var j := IncludesWitness(hay[1..], needle);
      assert hay[j + 1..j + 1 + |needle|] == hay[1..][j..j + |needle|];
      i := j + 1;
    }
  }

  /** `includes` holds exactly when `needle` is a contiguous slice of `hay`. */
  lemma IncludesIff(hay: string, needle: string)
    ensures Includes(hay, needle) <==> exists i :: OccursAt(hay, needle, i)
  {
    if Includes(hay, needle) {
      var i := IncludesWitness(hay, needle);
    } else if exists i :: OccursAt(hay, needle, i) {
      var i :| OccursAt(hay, needle, i);
      IncludesAt(hay, needle, i);
    }
  }

  // ---- decimal rendering: String(n) for an integer n -------------------------

  function DigitChar(d: nat): (c: char)
    requires d < 10
    ensures '0' <= c <= '9' && c as int - '0' as int == d
  {
    ('0' as int + d) as char
  }

  predicate IsDecimalDigit(c: char) {
    '0' <= c <= '9'
  }

  /** The shortest decimal numeral of `n`. */
  function NatToString(n: nat): (s: string)
    ensures |s| >= 1
    ensures forall i :: 0 <= i < |s| ==> IsDecimalDigit(s[i])
    ensures s[0] == '0' ==> n == 0 && s == "0"
  {
    if n < 10 then [DigitChar(n)] else NatToString(n / 10) + [DigitChar(n % 10)]
  }

  /** `String(n)` for an integer `n`. */
  function IntToString(n: int): (s: string)
    ensures |s| >= 1
    ensures n >= 0 ==> s == NatToString(n)
    ensures n < 0 ==> s == "-" + NatToString(-n)
  {
    if n < 0 then "-" + NatToString(-n) else NatToString(n)
  }

  // ---- parseInt ---------------------------------------------------------------

  /** The value of `c` as a digit in base `radix` (10 or 16), if it is one. */
  function DigitValue(c: char, radix: nat): (r: Option<nat>)
    ensures r.Some? ==> r.value < radix
  {
    if '0' <= c <= '9' && (c as int - '0' as int) < radix then Some(c as int - '0' as int)
    else if radix == 16 && 'a' <= c <= 'f' then Some(c as int - 'a' as int + 10)
    else if radix == 16 && 'A' <= c <= 'F' then Some(c as int - 'A' as int + 10)
    else None
  }

  /** The length of the longest prefix of `s` made of base-`radix` digits. */
  function DigitRun(s: string, radix: nat): (n: nat)
    ensures n <= |s|
    ensures forall i :: 0 <= i < n ==> DigitValue(s[i], radix).Some?
    ensures n < |s| ==> DigitValue(s[n], radix).None?
  {
    if |s| > 0 && DigitValue(s[0], radix).Some? then 1 + DigitRun(s[1..], radix) else 0
  }

  /** The number a string of base-`radix` digits denotes, most significant first. */
  function DigitsValue(s: string, radix: nat): nat
    requires forall i :: 0 <= i < |s| ==> DigitValue(s[i], radix).Some?
  {
    if s == [] then 0
    else DigitsValue(s[..|s| - 1], radix) * radix + DigitValue(s[|s| - 1], radix).value
  }

  /** The digits that follow the sign in `parseInt`: a `0x`/`0X` prefix
      selects base 16, otherwise base 10, and the longest run of digits that
      follows is the value; no digit at all gives `None`. */
  function ParseUnsigned(u: string): Option<nat> {
    var hex := |u| >= 2 && u[0] == '0' && (u[1] == 'x' || u[1] == 'X');
    var radix := if hex then 16 else 10;
    var body := if hex then u[2..] else u;
    var n := DigitRun(body, radix);
    if n == 0 then None else Some(DigitsValue(body[..n], radix))
  }

  /** `parseInt(s)` without a radix argument: leading white space is skipped and
      an optional sign is read before the digits. `NaN` is modelled as `None`. */
  function ParseInt(s: string): Option<int> {
    var t := TrimStart(s);
    var negative := |t| > 0 && t[0] == '-';
    var u := if |t| > 0 && (t[0] == '-' || t[0] == '+') then t[1..] else t;
    match ParseUnsigned(u)
    case None => None
    case Some(v) =>
      var w: int := v;
      Some(if negative then -w else w)
  }

  lemma {:induction false} DigitsValueOfNatToString(n: nat)
    ensures forall i :: 0 <= i < |NatToString(n)| ==> DigitValue(NatToString(n)[i], 10).Some?
    ensures DigitsValue(NatToString(n), 10) == n
  {
    var s := NatToString(n);
    assert forall i :: 0 <= i < |s| ==> DigitValue(s[i], 10).Some?;
    if n >= 10 {
      DigitsValueOfNatToString(n / 10);
      assert s[..|s| - 1] == NatToString(n / 10);
    }
  }

  lemma AllDigitRun(s: string)
    requires forall i :: 0 <= i < |s| ==> IsDecimalDigit(s[i])
    ensures DigitRun(s, 10) == |s|
  {
  }

  lemma {:induction false} DigitRunStops(digits: string, rest: string)
    requires forall i :: 0 <= i < |digits| ==> IsDecimalDigit(digits[i])
    requires |rest| > 0 && DigitValue(rest[0], 10).None?
    ensures DigitRun(digits + rest, 10) == |digits|
  {
    if digits != [] {
      assert (digits + rest)[1..] == digits[1..] + rest;
      DigitRunStops(digits[1..], rest);
    }
  }

  /** The digits of a number followed by text that starts with neither a
      digit nor the `x` of a hexadecimal prefix are read as that number. */
  lemma ParseUnsignedOfLeadingNat(n: nat, rest: string)
    requires |rest| > 0 && DigitValue(rest[0], 10).None? && rest[0] != 'x' && rest[0] != 'X'
    ensures ParseUnsigned(NatToString(n) + rest) == Some(n)
  {
    var digits := NatToString(n);
    var u := digits + rest;
    assert u[1] == if |digits| > 1 then digits[1] else rest[0];
    DigitRunStops(digits, rest);
    assert u[..|digits|] == digits;
    DigitsValueOfNatToString(n);
  }

  /** A number written out and followed by text that starts with neither a
      digit nor the `x` of a hexadecimal prefix reads back as that number. */
  lemma ParseIntOfLeadingNat(n: nat, rest: string)
    requires |rest| > 0 && DigitValue(rest[0], 10).None? && rest[0] != 'x' && rest[0] != 'X'
    ensures ParseInt(NatToString(n) + rest) == Some(n)
  {
    var u := NatToString(n) + rest;
    assert TrimStart(u) == u by {
      assert u[0] == NatToString(n)[0];
      assert !IsSpace(u[0]);
    }
    assert u[0] != '-' && u[0] != '+';
    ParseUnsignedOfLeadingNat(n, rest);
  }

  /** Different numbers are written differently. */
  lemma NatToStringInjective(a: nat, b: nat)
    requires NatToString(a) == NatToString(b)
    ensures a == b
  {
    DigitsValueOfNatToString(a);
    DigitsValueOfNatToString(b);
  }

  lemma ParseUnsignedOfNatToString(m: nat)
    ensures ParseUnsigned(NatToString(m)) == Some(m)
  {
    var u := NatToString(m);
    assert u[0] == '0' ==> |u| == 1;
    AllDigitRun(u);
    assert DigitRun(u, 10) == |u|;
    DigitsValueOfNatToString(m);
    assert u[..|u|] == u;
    assert DigitsValue(u[..|u|], 10) == m;
  }

  /** `parseInt(String(n))` gives back `n`: the rendering of an integer is read
      back as the same integer. */
  lemma ParseIntOfIntToString(n: int)
    ensures ParseInt(IntToString(n)) == Some(n)
  {
    var m := if n < 0 then -n else n;
    var s := IntToString(n);
    assert TrimStart(s) == s by {
      assert !IsSpace(s[0]);
    }
    ParseUnsignedOfNatToString(m);
    if n < 0 {
      assert s[1..] == NatToString(m);
    }
  }

  // ---- padEnd, repeat, join ---------------------------------------------------

  /** `c.repeat(n)` for a one-character string `c`, and more generally `n`
      copies of `s` one after the other. */
  function Repeat(s: string, n: nat): (r: string)
    ensures |r| == n * |s|
  {
    if n == 0 then "" else s + Repeat(s, n - 1)
  }

  lemma {:induction false} RepeatChar(c: char, n: nat)
    ensures forall i :: 0 <= i < n ==> Repeat([c], n)[i] == c
  {
    if n > 0 {
      RepeatChar(c, n - 1);
      assert Repeat([c], n) == [c] + Repeat([c], n - 1);
    }
  }

  /** `s.padEnd(width)`: `s` followed by spaces up to `width` characters. */
  function PadEnd(s: string, width: nat): (r: string)
    ensures |r| == if |s| < width then width else |s|
    ensures r[..|s|] == s
    ensures forall i :: |s| <= i < |r| ==> r[i] == ' '
  {
    var pad := if |s| < width then Repeat(" ", width - |s|) else "";
    RepeatChar(' ', |pad|);
    s + pad
  }

  /** `lines.join(sep)`. */
  function Join(lines: seq<string>, sep: string): string {
    if lines == [] then ""
    else if |lines| == 1 then lines[0]
    else lines[0] + sep + Join(lines[1..], sep)
  }
}

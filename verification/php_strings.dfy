/** Models of the PHP string built-ins the gateway relies on: `explode`,
    `implode`, `array_filter` on empty strings, `ltrim`, `strpos`,
    `urldecode`, `intval`, `strtolower`, `basename` and
    `pathinfo(..., PATHINFO_EXTENSION)`.

    A PHP string is a byte string. Here every `char` of a Dafny `string`
    stands for one byte of the PHP string. */
module PhpStrings {

  datatype Option<+T> = None | Some(value: T)

  /** PHP truthiness of a string: `""` and `"0"` are the falsy strings, so
      `!$s` and `empty($s)` hold exactly for them. */
  predicate Falsy(s: string)
  {
    s == "" || s == "0"
  }

  // ---------------------------------------------------------------------
  // explode / implode
  // ---------------------------------------------------------------------

  /** `explode(d, s)` for a one-character delimiter: the pieces between the
      occurrences of `d`, always at least one (the empty string gives `[""]`). */
  function Explode(d: char, s: string): (r: seq<string>)
    ensures |r| >= 1
    decreases |s|
  {
    if s == [] then [""]
    else
      var rest := Explode(d, s[1..]);
      if s[0] == d then [""] + rest
      else [[s[0]] + rest[0]] + rest[1..]
  }

  /** No piece of `explode` contains the delimiter. */
  lemma {:induction false} ExplodePieces(d: char, s: string)
    ensures forall i :: 0 <= i < |Explode(d, s)| ==> d !in Explode(d, s)[i]
    decreases |s|
  {
    if s != [] {
      ExplodePieces(d, s[1..]);
      var rest := Explode(d, s[1..]);
      if s[0] != d {
        assert d !in [s[0]] + rest[0];
      }
    }
  }

  /** `implode(d, parts)`: the parts separated by `d`. */
  function Implode(d: char, parts: seq<string>): string
    decreases |parts|
  {
    if parts == [] then ""
    else if |parts| == 1 then parts[0]
    else parts[0] + [d] + Implode(d, parts[1..])
  }

  /** Joining a list that starts with an empty piece. */
  lemma ImplodeEmptyFirst(d: char, rest: seq<string>)
    requires |rest| >= 1
    ensures Implode(d, [""] + rest) == [d] + Implode(d, rest)
  {
    assert ([""] + rest)[1..] == rest;
  }

  /** Joining a list whose first piece starts with `c`. */
  lemma ImplodeGlued(d: char, c: char, rest: seq<string>)
    requires |rest| >= 1
    ensures Implode(d, [[c] + rest[0]] + rest[1..]) == [c] + Implode(d, rest)
  {
    var r := [[c] + rest[0]] + rest[1..];
    if |rest| > 1 {
      assert r[1..] == rest[1..];
    }
  }

  /** Joining the pieces of `explode` gives the string back. */
  lemma {:induction false} ImplodeExplode(d: char, s: string)
    ensures Implode(d, Explode(d, s)) == s
    decreases |s|
  {
    if s != [] {
      var c, t := s[0], s[1..];
      assert s == [c] + t;
      ImplodeExplode(d, t);
      ExplodeCons(d, c, t);
      if c == d {
        ImplodeEmptyFirst(d, Explode(d, t));
      } else {
        ImplodeGlued(d, c, Explode(d, t));
      }
    }
  }

  /** A string without the delimiter is a single piece. */
  lemma {:induction false} ExplodeNoDelimiter(d: char, s: string)
    requires d !in s
    ensures Explode(d, s) == [s]
    decreases |s|
  {
    if s != [] {
      assert d !in s[1..];
      ExplodeNoDelimiter(d, s[1..]);
      assert s == [s[0]] + s[1..];
    }
  }

  /** One step of `explode`: the first character either ends the first
      piece or joins it. */
  lemma ExplodeCons(d: char, c: char, t: string)
    ensures c == d ==> Explode(d, [c] + t) == [""] + Explode(d, t)
    ensures c != d ==> Explode(d, [c] + t) == [[c] + Explode(d, t)[0]] + Explode(d, t)[1..]
  {
    assert ([c] + t)[0] == c && ([c] + t)[1..] == t;
  }

  /** Gluing a character to the first of two concatenated piece lists. */
  lemma GlueFirst(c: char, ra: seq<string>, rb: seq<string>)
    requires |ra| >= 1
    ensures [[c] + (ra + rb)[0]] + (ra + rb)[1..] == ([[c] + ra[0]] + ra[1..]) + rb
  {
    assert (ra + rb)[0] == ra[0];
    assert (ra + rb)[1..] == ra[1..] + rb;
  }

  /** The inductive step of `ExplodeAround`: one more character in front. */
  lemma ExplodeAroundStep(d: char, c: char, t: string, b: string)
    requires Explode(d, t + [d] + b) == Explode(d, t) + Explode(d, b)
    ensures Explode(d, [c] + t + [d] + b) == Explode(d, [c] + t) + Explode(d, b)
  {
    var tail := t + [d] + b;
    assert [c] + t + [d] + b == [c] + tail;
    ExplodeCons(d, c, tail);
    ExplodeCons(d, c, t);
    if c == d {
      assert [""] + (Explode(d, t) + Explode(d, b)) == ([""] + Explode(d, t)) + Explode(d, b);
    } else {
      GlueFirst(c, Explode(d, t), Explode(d, b));
    }
  }

  /** Exploding around one delimiter splits the result in two. */
  lemma {:induction false} ExplodeAround(d: char, a: string, b: string)
    ensures Explode(d, a + [d] + b) == Explode(d, a) + Explode(d, b)
    decreases |a|
  {
    if a == [] {
      assert a + [d] + b == [d] + b;
      ExplodeCons(d, d, b);
    } else {
      ExplodeAround(d, a[1..], b);
      ExplodeAroundStep(d, a[0], a[1..], b);
      assert a == [a[0]] + a[1..];
    }
  }

  /** Splitting a joined list of delimiter-free parts gives the parts back. */
  lemma {:induction false} ExplodeImplode(d: char, parts: seq<string>)
    requires |parts| >= 1
    requires forall i :: 0 <= i < |parts| ==> d !in parts[i]
    ensures Explode(d, Implode(d, parts)) == parts
    decreases |parts|
  {
    if |parts| == 1 {
      ExplodeNoDelimiter(d, parts[0]);
    } else {
      ExplodeAround(d, parts[0], Implode(d, parts[1..]));
      ExplodeNoDelimiter(d, parts[0]);
      ExplodeImplode(d, parts[1..]);
      assert parts == [parts[0]] + parts[1..];
    }
  }

  // ---------------------------------------------------------------------
  // array_filter(..., fn($v) => $v !== '') and ltrim
  // ---------------------------------------------------------------------

  /** The pieces that are not the empty string, in their order. */
  function NonEmpty(parts: seq<string>): (r: seq<string>)
    ensures |r| <= |parts|
    ensures forall i :: 0 <= i < |r| ==> r[i] != "" && r[i] in parts
    decreases |parts|
  {
    if parts == [] then []
    else if parts[0] == "" then NonEmpty(parts[1..])
    else [parts[0]] + NonEmpty(parts[1..])
  }

  /** Filtering distributes over concatenation. */
  lemma {:induction false} NonEmptyAppend(a: seq<string>, b: seq<string>)
    ensures NonEmpty(a + b) == NonEmpty(a) + NonEmpty(b)
    decreases |a|
  {
    if a == [] {
      assert a + b == b;
    } else {
      assert (a + b)[0] == a[0];
      assert (a + b)[1..] == a[1..] + b;
      NonEmptyAppend(a[1..], b);
      if a[0] != "" {
        assert NonEmpty(a) == [a[0]] + NonEmpty(a[1..]);
      }
    }
  }

  /** `ltrim(s, c)`: `s` without its leading `c` characters. */
  function TrimLeft(c: char, s: string): (r: string)
    ensures |r| <= |s| && r == s[|s| - |r|..]
    ensures r == [] || r[0] != c
    ensures forall i :: 0 <= i < |s| - |r| ==> s[i] == c
    decreases |s|
  {
    if s != [] && s[0] == c then TrimLeft(c, s[1..]) else s
  }

  // ---------------------------------------------------------------------
  // strpos
  // ---------------------------------------------------------------------

  /** `needle` occurs in `hay` at index `i`. */
  predicate MatchAt(hay: string, needle: string, i: int)
  {
    0 <= i && i + |needle| <= |hay| && hay[i..i + |needle|] == needle
  }

  /** `strpos(hay, needle, from)`: the first occurrence at or after `from`. */
  function StrPosFrom(hay: string, needle: string, from: nat): (r: Option<nat>)
    ensures r.Some? ==> from <= r.value && MatchAt(hay, needle, r.value)
    ensures r.Some? ==> forall j :: from <= j < r.value ==> !MatchAt(hay, needle, j)
    ensures r.None? ==> forall j :: from <= j ==> !MatchAt(hay, needle, j)
    decreases |hay| - from
  {
    if from + |needle| > |hay| then None
    else if hay[from..from + |needle|] == needle then Some(from)
    else StrPosFrom(hay, needle, from + 1)
  }

  /** `strpos(hay, needle)`: the first index at which `needle` occurs. */
  function StrPos(hay: string, needle: string): (r: Option<nat>)
    ensures r.Some? ==> MatchAt(hay, needle, r.value)
    ensures r.Some? ==> forall j :: 0 <= j < r.value ==> !MatchAt(hay, needle, j)
    ensures r.None? <==> forall j :: !MatchAt(hay, needle, j)
  {
    StrPosFrom(hay, needle, 0)
  }

  /** A string occurs inside any string built around it. */
  lemma OccursInside(a: string, needle: string, b: string)
    ensures StrPos(a + needle + b, needle).Some?
  {
    var h := a + needle + b;
    assert h[|a|..|a| + |needle|] == needle;
    assert MatchAt(h, needle, |a|);
  }

  // ---------------------------------------------------------------------
  // urldecode
  // ---------------------------------------------------------------------

  predicate IsHexDigit(c: char)
  {
    ('0' <= c <= '9') || ('a' <= c <= 'f') || ('A' <= c <= 'F')
  }

  function HexValue(c: char): (v: nat)
    requires IsHexDigit(c)
    ensures v < 16
  {
    if '0' <= c <= '9' then (c as int) - ('0' as int)
    else if 'a' <= c <= 'f' then (c as int) - ('a' as int) + 10
    else (c as int) - ('A' as int) + 10
  }

  /** `urldecode`: `+` becomes a space, `%` followed by two hex digits becomes
      the byte they denote, every other byte (a stray `%` included) is kept. */
  function UrlDecode(s: string): (r: string)
    ensures |r| <= |s|
    decreases |s|
  {
    if s == [] then []
    else if s[0] == '+' then [' '] + UrlDecode(s[1..])
    else if s[0] == '%' && |s| >= 3 && IsHexDigit(s[1]) && IsHexDigit(s[2]) then
      [(HexValue(s[1]) * 16 + HexValue(s[2])) as char] + UrlDecode(s[3..])
    else [s[0]] + UrlDecode(s[1..])
  }

  /** Without `%` and `+` there is nothing to decode. */
  lemma {:induction false} UrlDecodePlain(s: string)
    requires '%' !in s && '+' !in s
    ensures UrlDecode(s) == s
    decreases |s|
  {
    if s != [] {
      assert '%' !in s[1..] && '+' !in s[1..];
      UrlDecodePlain(s[1..]);
      assert s == [s[0]] + s[1..];
    }
  }

  predicate IsByteString(s: string)
  {
    forall i :: 0 <= i < |s| ==> (s[i] as int) < 256
  }

  function HexDigit(v: nat): (c: char)
    requires v < 16
    ensures IsHexDigit(c) && HexValue(c) == v
  {
    if v < 10 then ('0' as int + v) as char else ('A' as int + v - 10) as char
  }

  /** The client side of the key: every byte written as `%XY`. */
  function PercentEncode(s: string): (r: string)
    requires IsByteString(s)
    ensures |r| == 3 * |s|
    decreases |s|
  {
    if s == [] then []
    else
      var b := s[0] as int;
      ['%', HexDigit(b / 16), HexDigit(b % 16)] + PercentEncode(s[1..])
  }

  /** `urldecode` undoes percent-encoding: a client may encode any key. */
  lemma {:induction false} UrlDecodePercentEncode(s: string)
    requires IsByteString(s)
    ensures UrlDecode(PercentEncode(s)) == s
    decreases |s|
  {
    if s != [] {
      var b := s[0] as int;
      var e := PercentEncode(s);
      var rest := PercentEncode(s[1..]);
      assert e == ['%', HexDigit(b / 16), HexDigit(b % 16)] + rest;
      assert e[3..] == rest;
      UrlDecodePercentEncode(s[1..]);
      assert (HexValue(e[1]) * 16 + HexValue(e[2])) as char == s[0];
      assert s == [s[0]] + s[1..];
    }
  }

  // ---------------------------------------------------------------------
  // intval and decimal rendering
  // ---------------------------------------------------------------------

  predicate IsDigit(c: char)
  {
    '0' <= c <= '9'
  }

  predicate AllDigits(s: string)
  {
    forall i :: 0 <= i < |s| ==> IsDigit(s[i])
  }

  /** The value of a run of decimal digits (`""` is 0). */
  function DigitsValue(s: string): nat
    requires AllDigits(s)
    decreases |s|
  {
    if s == [] then 0
    else 10 * DigitsValue(s[..|s| - 1]) + ((s[|s| - 1] as int) - ('0' as int))
  }

  /** The longest prefix of `s` made of digits. */
  function DigitPrefix(s: string): (r: string)
    ensures AllDigits(r) && r <= s
    ensures |r| < |s| ==> !IsDigit(s[|r|])
    decreases |s|
  {
    if s != [] && IsDigit(s[0]) then [s[0]] + DigitPrefix(s[1..]) else []
  }

  predicate IsPhpSpace(c: char)
  {
    c == ' ' || c == '\t' || c == '\n' || c == '\r' || c == '\U{B}' || c == '\U{C}'
  }

  /** Leading white space that PHP skips before a number. */
  function SkipSpace(s: string): (r: string)
    ensures |r| <= |s| && r == s[|s| - |r|..]
    ensures r == [] || !IsPhpSpace(r[0])
    decreases |s|
  {
    if s != [] && IsPhpSpace(s[0]) then SkipSpace(s[1..]) else s
  }

  /** `intval(s)` (also `intval(null)` for `s == ""`): white space, a sign,
      then the leading decimal digits; no digits at all gives 0. */
  function IntVal(s: string): (r: int)
    ensures '-' !in s ==> r >= 0
  {
    var t := SkipSpace(s);
    assert t != [] ==> t[0] == s[|s| - |t|];
    if t != [] && t[0] == '-' then 0 - DigitsValue(DigitPrefix(t[1..]))
    else if t != [] && t[0] == '+' then DigitsValue(DigitPrefix(t[1..]))
    else DigitsValue(DigitPrefix(t))
  }

  /** The decimal rendering of a natural number, as PHP interpolates it. */
  function Decimal(n: nat): (r: string)
    ensures |r| >= 1 && AllDigits(r)
    decreases n
  {
    if n < 10 then [('0' as int + n) as char]
    else Decimal(n / 10) + [('0' as int + n % 10) as char]
  }

  lemma {:induction false} DigitsValueDecimal(n: nat)
    ensures DigitsValue(Decimal(n)) == n
    decreases n
  {
    if n >= 10 {
      var d := Decimal(n);
      assert d[..|d| - 1] == Decimal(n / 10);
      DigitsValueDecimal(n / 10);
    }
  }

  /** A run of digits is its own digit prefix, whatever follows a non-digit. */
  lemma {:induction false} DigitPrefixOfDigits(s: string, rest: string)
    requires AllDigits(s)
    requires rest == [] || !IsDigit(rest[0])
    ensures DigitPrefix(s + rest) == s
    decreases |s|
  {
    if s != [] {
      assert (s + rest)[1..] == s[1..] + rest;
      DigitPrefixOfDigits(s[1..], rest);
      assert s == [s[0]] + s[1..];
    } else {
      assert s + rest == rest;
    }
  }

  /** A string that starts with a digit or a sign has no leading white
      space. */
  lemma NoSpaceToSkip(s: string)
    requires s != [] && (IsDigit(s[0]) || s[0] == '-')
    ensures SkipSpace(s) == s
  {
    assert !IsPhpSpace(s[0]);
  }

  /** Leading digits are read as they are, whatever non-digit follows. */
  lemma IntValOfDigits(d: string, rest: string)
    requires |d| >= 1 && AllDigits(d)
    requires rest == [] || !IsDigit(rest[0])
    ensures IntVal(d + rest) == DigitsValue(d)
  {
    var t := d + rest;
    DigitPrefixOfDigits(d, rest);
    assert t[0] == d[0];
    NoSpaceToSkip(t);
    assert t[0] != '-' && t[0] != '+';
  }

  /** A leading minus sign negates the digits that follow it. */
  lemma IntValOfMinus(t: string)
    ensures IntVal("-" + t) == 0 - DigitsValue(DigitPrefix(t))
  {
    var m := "-" + t;
    assert m[0] == '-' && m[1..] == t;
    NoSpaceToSkip(m);
  }

  /** After a minus sign, the digits are read negated. */
  lemma IntValOfNegated(d: string, rest: string)
    requires |d| >= 1 && AllDigits(d)
    requires rest == [] || !IsDigit(rest[0])
    ensures IntVal("-" + d + rest) == 0 - DigitsValue(d)
  {
    assert "-" + d + rest == "-" + (d + rest);
    IntValOfMinus(d + rest);
    DigitPrefixOfDigits(d, rest);
  }

  /** `intval` reads back the number PHP rendered, also after a `-` sign,
      and stops at the first non-digit. */
  lemma IntValDecimal(n: nat, rest: string)
    requires rest == [] || !IsDigit(rest[0])
    ensures IntVal(Decimal(n) + rest) == n
    ensures IntVal("-" + Decimal(n) + rest) == 0 - n
  {
    IntValOfDigits(Decimal(n), rest);
    IntValOfNegated(Decimal(n), rest);
    DigitsValueDecimal(n);
  }

  // ---------------------------------------------------------------------
  // strtolower, basename, pathinfo extension
  // ---------------------------------------------------------------------

  function LowerChar(c: char): char
  {
    if 'A' <= c <= 'Z' then (c as int + 32) as char else c
  }

  /** `strtolower` (PHP 8: ASCII letters only). */
  function Lower(s: string): (r: string)
    ensures |r| == |s|
    ensures forall i :: 0 <= i < |s| ==> r[i] == LowerChar(s[i])
  {
    seq(|s|, i requires 0 <= i < |s| => LowerChar(s[i]))
  }

  /** `str_replace(a, b, s)` for single characters. */
  function ReplaceChar(a: char, b: char, s: string): (r: string)
    ensures |r| == |s|
    ensures a != b ==> a !in r
  {
    seq(|s|, i requires 0 <= i < |s| => if s[i] == a then b else s[i])
  }

  /** The index of the last `c` in `s`, or -1. */
  function LastIndexOf(c: char, s: string): (i: int)
    ensures -1 <= i < |s|
    ensures i >= 0 ==> s[i] == c
    ensures forall j :: i < j < |s| ==> s[j] != c
    decreases |s|
  {
    if s == [] then -1
    else if s[|s| - 1] == c then |s| - 1
    else LastIndexOf(c, s[..|s| - 1])
  }

  /** `rtrim(s, c)`: `s` without its trailing `c` characters. */
  function TrimRight(c: char, s: string): (r: string)
    ensures r <= s
    ensures r == [] || r[|r| - 1] != c
    ensures forall i :: |r| <= i < |s| ==> s[i] == c
    decreases |s|
  {
    if s != [] && s[|s| - 1] == c then TrimRight(c, s[..|s| - 1]) else s
  }

  /** `basename(path)`: the last `/`-separated component, trailing slashes
      ignored. */
  function Basename(path: string): (r: string)
    ensures '/' !in r
  {
    var t := TrimRight('/', path);
    t[LastIndexOf('/', t) + 1..]
  }

  /** `pathinfo(path, PATHINFO_EXTENSION)`: what follows the last `.` of the
      base name, `""` when the base name has no `.`. */
  function Extension(path: string): (r: string)
    ensures '.' !in r && '/' !in r
  {
    var b := Basename(path);
    var i := LastIndexOf('.', b);
    if i < 0 then "" else b[i + 1..]
  }

  /** The last `c` of `a + [c] + b` is the one between them when `b` has
      none. */
  lemma {:induction false} LastIndexAfter(c: char, a: string, b: string)
    requires c !in b
    ensures LastIndexOf(c, a + [c] + b) == |a|
    decreases |b|
  {
    var s := a + [c] + b;
    if b != [] {
      assert s[|s| - 1] == b[|b| - 1];
      assert s[..|s| - 1] == a + [c] + b[..|b| - 1];
      LastIndexAfter(c, a, b[..|b| - 1]);
    }
  }

  /** The base name of `dir/name` is `name`. */
  lemma BasenameOfChild(dir: string, name: string)
    requires '/' !in name && name != ""
    ensures Basename(dir + "/" + name) == name
  {
    var p := dir + "/" + name;
    assert p == dir + ['/'] + name;
    assert p[|p| - 1] == name[|name| - 1];
    assert TrimRight('/', p) == p;
    LastIndexAfter('/', dir, name);
    assert p[|dir| + 1..] == name;
  }

  /** The extension of `dir/stem.ext` is `ext`. */
  lemma ExtensionOfName(dir: string, stem: string, ext: string)
    requires '/' !in stem && '/' !in ext && '.' !in ext && ext != ""
    ensures Extension(dir + "/" + stem + "." + ext) == ext
  {
    var name := stem + "." + ext;
    assert dir + "/" + stem + "." + ext == dir + "/" + name;
    assert name == stem + ['.'] + ext;
    BasenameOfChild(dir, name);
    LastIndexAfter('.', stem, ext);
    assert name[|stem| + 1..] == ext;
  }
}

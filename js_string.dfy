/**
  The JavaScript string and number built-ins that the compile cache relies on, stated
  over Dafny strings: `includes`, `split('__')[1]`, `parseInt`, `Number#toString(radix)`,
  `padStart` and the UTF-16 view that `charCodeAt` reads.
 */
module JsString {
  import opened Wrappers

  /** `s.includes(t)`: `t` occurs in `s` at some position. */
  predicate Includes(s: string, t: string)
  {
    exists i :: 0 <= i <= |s| && t <= s[i..]
  }

  /** `s.indexOf(t)`, with `None` for -1: the leftmost position where `t` occurs. */
  function IndexOf(s: string, t: string): (r: Option<nat>)
    ensures r.Some? <==> Includes(s, t)
    ensures r.Some? ==> r.value + |t| <= |s| && t <= s[r.value..]
    ensures r.Some? ==> forall j :: 0 <= j < r.value ==> !(t <= s[j..])
    decreases |s|
  {
    if t <= s then
      assert s[0..] == s;
      Some(0)
    else if s == [] then
      None
    else
      var r := IndexOf(s[1..], t);
      assert forall j :: 1 <= j <= |s| ==> s[j..] == s[1..][j - 1..];
      match r
      case None => None
      case Some(k) => Some(k + 1)
  }

  /** The separator the cache puts between a name and its timestamp. */
  const Separator: string := "__"

  /**
    `s.split('__')[1]`: the text between the first and the second separator (or the end),
    and `None` for `undefined` when `s` holds no separator.
   */
  function SecondField(s: string): Option<string>
  {
    match IndexOf(s, Separator)
    case None => None
    case Some(p) =>
      var rest := s[p + |Separator|..];
      match IndexOf(rest, Separator)
      case None => Some(rest)
      case Some(q) => Some(rest[..q])
  }

  /** The characters `parseInt` skips before the number (white space and line terminators). */
  predicate IsWhiteSpace(c: char)
  {
    var n := c as int;
    n == 0x09 || n == 0x0A || n == 0x0B || n == 0x0C || n == 0x0D || n == 0x20 || n == 0xA0
    || n == 0x1680 || (0x2000 <= n <= 0x200A) || n == 0x2028 || n == 0x2029 || n == 0x202F
    || n == 0x205F || n == 0x3000 || n == 0xFEFF
  }

  function TrimStart(s: string): (r: string)
    ensures exists i :: 0 <= i <= |s| && r == s[i..] && forall j :: 0 <= j < i ==> IsWhiteSpace(s[j])
    ensures r != [] ==> !IsWhiteSpace(r[0])
  {
    if s != [] && IsWhiteSpace(s[0]) then
      var r := TrimStart(s[1..]);
      assert exists i :: 0 <= i <= |s| && r == s[i..] && forall j :: 0 <= j < i ==> IsWhiteSpace(s[j]) by {
        var k :| 0 <= k <= |s[1..]| && r == s[1..][k..] && forall j :: 0 <= j < k ==> IsWhiteSpace(s[1..][j]);
        assert r == s[k + 1..];
        assert forall j :: 0 <= j < k + 1 ==> IsWhiteSpace(s[j]) by {
          forall j | 0 <= j < k + 1
            ensures IsWhiteSpace(s[j])
          {
            if j > 0 {
              assert s[j] == s[1..][j - 1];
            }
          }
        }
      }
      r
    else
      assert s[0..] == s;
      s
  }

  /** The value of a digit in any radix up to 36, and 36 for a character that is no digit. */
  function DigitValue(c: char): (d: nat)
    ensures d <= 36
  {
    if '0' <= c <= '9' then c as int - '0' as int
    else if 'a' <= c <= 'z' then c as int - 'a' as int + 10
    else if 'A' <= c <= 'Z' then c as int - 'A' as int + 10
    else 36
  }

  /** The lower-case digit that `Number#toString` writes for `d`. */
  function DigitChar(d: nat): (c: char)
    requires d < 36
    ensures DigitValue(c) == d
    ensures '0' <= c <= '9' || 'a' <= c <= 'z'
  {
    if d < 10 then ('0' as int + d) as char else ('a' as int + d - 10) as char
  }

  predicate AllDigits(s: string, radix: nat)
  {
    forall i :: 0 <= i < |s| ==> DigitValue(s[i]) < radix
  }

  /** The longest prefix of `s` made of digits of `radix`. */
  function DigitPrefix(s: string, radix: nat): (d: string)
    ensures d <= s && AllDigits(d, radix)
    ensures |d| < |s| ==> DigitValue(s[|d|]) >= radix
  {
    if s == [] || DigitValue(s[0]) >= radix then []
    else [s[0]] + DigitPrefix(s[1..], radix)
  }

  /** The number that the digits `d` spell in `radix`, most significant first. */
  function ValueOf(d: string, radix: nat): nat
    requires AllDigits(d, radix)
  {
    if d == [] then 0 else ValueOf(d[..|d| - 1], radix) * radix + DigitValue(d[|d| - 1])
  }

  /** The digits of `n` in `radix` without leading zeros ("0" for zero). */
  function NatToRadix(n: nat, radix: nat): (s: string)
    requires 2 <= radix <= 36
    ensures |s| >= 1 && AllDigits(s, radix)
    ensures forall i :: 0 <= i < |s| ==> '0' <= s[i] <= '9' || 'a' <= s[i] <= 'z'
  {
    if n < radix then [DigitChar(n)]
    else
      DivMod(n, radix);
      var prefix, last := NatToRadix(n / radix, radix), DigitChar(n % radix);
      assert forall i :: 0 <= i < |prefix| ==> (prefix + [last])[i] == prefix[i];
      prefix + [last]
  }

  /** `n.toString(radix)` for an integral number `n`. */
  function NumberToString(n: int, radix: nat): string
    requires 2 <= radix <= 36
  {
    if n < 0 then "-" + NatToRadix(-n, radix) else NatToRadix(n, radix)
  }

  /** `parseInt(s)` with no radix argument, `None` standing for `NaN`. */
  function ParseInt(s: string): Option<int>
  {
    ParseSigned(TrimStart(s))
  }

  /** `parseInt` after the leading white space: an optional sign, then the magnitude. */
  function ParseSigned(t: string): Option<int>
  {
    if t != [] && t[0] == '-' then
      match ParseMagnitude(t[1..])
      case None => None
      case Some(m) => Some(0 - m)
    else
      match ParseMagnitude(if t != [] && t[0] == '+' then t[1..] else t)
      case None => None
      case Some(m) => Some(m as int)
  }

  /** The unsigned part of `parseInt`: a `0x` prefix selects radix 16, otherwise radix 10. */
  function ParseMagnitude(u: string): Option<nat>
  {
    if |u| >= 2 && u[0] == '0' && (u[1] == 'x' || u[1] == 'X') then ParseDigits(u[2..], 16)
    else ParseDigits(u, 10)
  }

  /** The value of the longest run of `radix` digits at the start of `u`, if there is one. */
  function ParseDigits(u: string, radix: nat): Option<nat>
  {
    var d := DigitPrefix(u, radix);
    if d == [] then None else Some(ValueOf(d, radix))
  }

  /** `s.padStart(width, fill)`: `fill` repeated in front of `s` up to `width` characters. */
  function PadStart(s: string, width: nat, fill: char): (r: string)
    ensures |r| == if |s| < width then width else |s|
    ensures r[|r| - |s|..] == s
    ensures forall i :: 0 <= i < |r| - |s| ==> r[i] == fill
  {
    if |s| >= width then s else seq(width - |s|, _ => fill) + s
  }

  /** The UTF-16 code units of one character, as `charCodeAt` reads them. */
  function CodeUnitsOf(c: char): (u: seq<int>)
    ensures 1 <= |u| <= 2
    ensures forall i :: 0 <= i < |u| ==> 0 <= u[i] < 0x1_0000
    ensures c as int < 0x1_0000 <==> u == [c as int]
    ensures c as int >= 0x1_0000 ==>
      && |u| == 2 && 0xD800 <= u[0] < 0xDC00 && 0xDC00 <= u[1] < 0xE000
      && c as int == 0x1_0000 + (u[0] - 0xD800) * 0x400 + (u[1] - 0xDC00)
  {
    if c as int < 0x1_0000 then [c as int]
    else
      var v := c as int - 0x1_0000;
      [0xD800 + v / 0x400, 0xDC00 + v % 0x400]
  }

  /** The UTF-16 code units of a string: what `length` counts and `charCodeAt(i)` returns. */
  function CodeUnits(s: string): (u: seq<int>)
    ensures |s| <= |u| <= 2 * |s|
    ensures forall i :: 0 <= i < |u| ==> 0 <= u[i] < 0x1_0000
  {
    if s == [] then [] else CodeUnitsOf(s[0]) + CodeUnits(s[1..])
  }

  // ----- properties ------------------------------------------------------------------

  /** A string of characters below 2^16 has one code unit per character, its own code. */
  lemma {:induction false} BmpCodeUnits(s: string)
    requires forall i :: 0 <= i < |s| ==> s[i] as int < 0x1_0000
    ensures |CodeUnits(s)| == |s|
    ensures forall i :: 0 <= i < |s| ==> CodeUnits(s)[i] == s[i] as int
  {
    if s != [] {
      BmpCodeUnits(s[1..]);
      assert CodeUnits(s) == [s[0] as int] + CodeUnits(s[1..]);
      forall i | 0 <= i < |s|
        ensures CodeUnits(s)[i] == s[i] as int
      {
        if i > 0 {
          assert CodeUnits(s)[i] == CodeUnits(s[1..])[i - 1];
          assert s[i] == s[1..][i - 1];
        }
      }
    }
  }

  lemma {:induction false} ValueOfNatToRadix(n: nat, radix: nat)
    requires 2 <= radix <= 36
    ensures ValueOf(NatToRadix(n, radix), radix) == n
    decreases n
  {
    if n >= radix {
      var q, d := n / radix, n % radix;
      DivMod(n, radix);
      ValueOfNatToRadix(q, radix);
      ValueOfSnoc(NatToRadix(q, radix), DigitChar(d), radix);
    }
  }

  lemma DivMod(n: nat, r: nat)
    requires r >= 2
    ensures n == (n / r) * r + n % r
    ensures 0 <= n % r < r
    ensures n >= r ==> n / r < n
  {
  }

  lemma ValueOfSnoc(d: string, c: char, radix: nat)
    requires AllDigits(d, radix) && DigitValue(c) < radix
    ensures AllDigits(d + [c], radix)
    ensures ValueOf(d + [c], radix) == ValueOf(d, radix) * radix + DigitValue(c)
  {
    assert (d + [c])[..|d|] == d;
  }

  lemma {:induction false} DigitPrefixOfDigits(s: string, radix: nat)
    requires AllDigits(s, radix)
    ensures DigitPrefix(s, radix) == s
    decreases |s|
  {
    if s != [] {
      DigitPrefixOfDigits(s[1..], radix);
    }
  }

  lemma ParseMagnitudeOfDigits(m: nat)
    ensures ParseMagnitude(NatToRadix(m, 10)) == Some(m)
  {
    var digits := NatToRadix(m, 10);
    assert |digits| >= 2 ==> DigitValue(digits[1]) < 10 && digits[1] != 'x' && digits[1] != 'X';
    assert ParseMagnitude(digits) == ParseDigits(digits, 10);
    DigitPrefixOfDigits(digits, 10);
    ValueOfNatToRadix(m, 10);
  }

  /** The decimal rendering of an integer (as a template literal writes it) parses back to it. */
  lemma ParseIntOfNumberToString(n: int)
    ensures ParseInt(NumberToString(n, 10)) == Some(n)
  {
    var m := if n < 0 then -n else n;
    var s := NumberToString(n, 10);
    ParseMagnitudeOfDigits(m);
    if n < 0 {
      NegativeRendering(m);
    } else {
      TrimStartAtNonSpace(s);
    }
  }

  lemma NegativeRendering(m: nat)
    requires m > 0
    ensures var s := "-" + NatToRadix(m, 10); TrimStart(s) == s && s[1..] == NatToRadix(m, 10)
  {
    TrimStartAtNonSpace("-" + NatToRadix(m, 10));
  }

  lemma TrimStartAtNonSpace(s: string)
    requires s != [] && ('0' <= s[0] <= '9' || s[0] == '-')
    ensures TrimStart(s) == s
  {
  }

  /** No character of a rendered decimal number is an underscore. */
  lemma NumberToStringHasNoUnderscore(n: int)
    ensures '_' !in NumberToString(n, 10)
  {
  }
}

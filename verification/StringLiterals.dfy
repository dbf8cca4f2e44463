/**
 String literals as `strconv.Unquote` reads them: escapes of every form, and raw
 bytes that are decoded as UTF-8 and written back, so that a byte which starts
 no rune becomes the replacement character.
 */
module StringLiterals {
  import opened Wrappers

  // ---------- UTF-8 ----------

  predicate Within(s: string, i: nat, lo: int, hi: int)
  {
    i < |s| && lo <= s[i] as int <= hi
  }

  predicate Continues(s: string, i: nat) { Within(s, i, 0x80, 0xBF) }

  /** The number of bytes of the rune s starts with; 0 when it starts with none. */
  function RuneSize(s: string): (n: nat)
    ensures n <= 4 && n <= |s|
  {
    if Within(s, 0, 0, 0x7F) then 1
    else if Within(s, 0, 0xC2, 0xDF) && Continues(s, 1) then 2
    else if Within(s, 0, 0xE0, 0xEF) && Continues(s, 2) &&
            Within(s, 1, if s[0] as int == 0xE0 then 0xA0 else 0x80, if s[0] as int == 0xED then 0x9F else 0xBF) then 3
    else if Within(s, 0, 0xF0, 0xF4) && Continues(s, 2) && Continues(s, 3) &&
            Within(s, 1, if s[0] as int == 0xF0 then 0x90 else 0x80, if s[0] as int == 0xF4 then 0x8F else 0xBF) then 4
    else 0
  }

  /** s is a sequence of runes; a character beyond the bytes counts as one. */
  predicate ValidUtf8(s: string)
  {
    s == "" || (if s[0] as int > 0xFF then ValidUtf8(s[1..]) else RuneSize(s) > 0 && ValidUtf8(s[RuneSize(s)..]))
  }

  /** The UTF-8 bytes of the replacement character U+FFFD. */
  const REPLACEMENT: string := "\U{EF}\U{BF}\U{BD}"

  predicate ValidRune(v: nat) { v < 0xD800 || 0xE000 <= v <= 0x10FFFF }

  function Byte(n: nat): char
    requires n <= 0xFF
  {
    n as char
  }

  /** `utf8.AppendRune`. */
  function EncodeRune(v: nat): string
    requires ValidRune(v)
  {
    if v < 0x80 then [Byte(v)]
    else if v < 0x800 then [Byte(0xC0 + v / 0x40), Byte(0x80 + v % 0x40)]
    else if v < 0x1_0000 then [Byte(0xE0 + v / 0x1000), Byte(0x80 + v / 0x40 % 0x40), Byte(0x80 + v % 0x40)]
    else [Byte(0xF0 + v / 0x4_0000), Byte(0x80 + v / 0x1000 % 0x40), Byte(0x80 + v / 0x40 % 0x40), Byte(0x80 + v % 0x40)]
  }

  // ---------- Unquoting ----------

  function HexValue(c: char): Option<nat>
  {
    if '0' <= c <= '9' then Some((c - '0') as nat)
    else if 'a' <= c <= 'f' then Some((c - 'a') as nat + 10)
    else if 'A' <= c <= 'F' then Some((c - 'A') as nat + 10)
    else None
  }

  /** The value of n hexadecimal digits at the front of s. */
  function HexDigits(s: string, n: nat): Option<nat>
    requires n <= |s|
  {
    if n == 0 then Some(0)
    else match (HexDigits(s, n - 1), HexValue(s[n - 1]))
      case (Some(v), Some(d)) => Some(16 * v + d)
      case _ => None
  }

  function OctalValue(c: char): Option<nat> { if '0' <= c <= '7' then Some((c - '0') as nat) else None }

  /** The byte a one-character escape stands for. */
  function Unescape(c: char): Option<char>
  {
    match c
    case 'a' => Some('\U{07}') case 'b' => Some('\U{08}') case 'f' => Some('\U{0C}')
    case 'n' => Some('\n') case 'r' => Some('\r') case 't' => Some('\t') case 'v' => Some('\U{0B}')
    case '\\' => Some('\\') case '"' => Some('"')
    case _ => None
  }

  /** What one step of unquoting writes, and how much it reads. */
  datatype Unit = Unit(text: string, size: nat)

  /** A numeric escape after its backslash: two digits of a byte, four or eight of a rune, or three octal ones of a byte. */
  function NumericEscape(s: string): (u: Option<Unit>)
    requires s != ""
    ensures u.Some? ==> 0 < u.value.size <= |s|
  {
    if s[0] == 'x' then
      if |s| < 3 then None
      else match HexDigits(s[1..], 2)
        case Some(v) => if v <= 0xFF then Some(Unit([Byte(v)], 3)) else None
        case None => None
    else if s[0] == 'u' || s[0] == 'U' then
      var n := if s[0] == 'u' then 4 else 8;
      if |s| < n + 1 then None
      else match HexDigits(s[1..], n)
        case Some(v) => if ValidRune(v) then Some(Unit(EncodeRune(v), n + 1)) else None
        case None => None
    else if |s| < 3 then None
    else match (OctalValue(s[0]), OctalValue(s[1]), OctalValue(s[2]))
      case (Some(a), Some(b), Some(c)) =>
        if 64 * a + 8 * b + c <= 0xFF then Some(Unit([Byte(64 * a + 8 * b + c)], 3)) else None
      case _ => None
  }

  /** `strconv.UnquoteChar` for a double-quoted literal; a bare newline is refused by its caller. */
  function UnquoteChar(s: string): (u: Option<Unit>)
    requires s != ""
    ensures u.Some? ==> 0 < u.value.size <= |s|
  {
    if s[0] == '\n' || s[0] == '"' then None
    else if 0x80 <= s[0] as int <= 0xFF then
      var n := RuneSize(s);
      if n > 0 then Some(Unit(s[..n], n)) else Some(Unit(REPLACEMENT, 1))
    else if s[0] != '\\' then Some(Unit([s[0]], 1))
    else if |s| < 2 then None
    else match Unescape(s[1])
      case Some(c) => Some(Unit([c], 2))
      case None =>
        match NumericEscape(s[1..])
        case Some(u) => Some(Unit(u.text, u.size + 1))
        case None => None
  }

  /** What stands between the quotes. */
  function UnquoteBody(b: string): Option<string>
  {
    if b == "" then Some("")
    else match UnquoteChar(b)
      case None => None
      case Some(u) =>
        match UnquoteBody(b[u.size..])
        case None => None
        case Some(t) => Some(u.text + t)
  }

  function Unquote(text: string): Option<string>
  {
    if |text| < 2 || text[0] != '"' || text[|text| - 1] != '"' then None
    else UnquoteBody(text[1..|text| - 1])
  }

  // ---------- Quoting ----------

  function HexChar(d: nat): (c: char)
    requires d < 16
    ensures HexValue(c) == Some(d) && c != '"' && c != '\\'
  {
    if d < 10 then '0' + d as char else 'a' + (d - 10) as char
  }

  /** How a byte is written inside a literal: quote, backslash and newline escaped, bytes from 0x80 on in hexadecimal. */
  function EscapeChar(c: char): (e: string)
    ensures e != ""
  {
    if c == '"' then "\\\""
    else if c == '\\' then "\\\\"
    else if c == '\n' then "\\n"
    else if 0x80 <= c as int <= 0xFF then ['\\', 'x', HexChar(c as int / 16), HexChar(c as int % 16)]
    else [c]
  }

  function Escape(s: string): string
  {
    if s == "" then "" else EscapeChar(s[0]) + Escape(s[1..])
  }

  function Quote(s: string): string { "\"" + Escape(s) + "\"" }

  lemma UnquoteEscapedByte(c: char, r: string)
    requires 0x80 <= c as int <= 0xFF
    ensures UnquoteChar(EscapeChar(c) + r) == Some(Unit([c], 4))
  {
    var s := EscapeChar(c) + r;
    var digits := s[2..];
    assert s[1..][1..] == digits && digits[0] == HexChar(c as int / 16) && digits[1] == HexChar(c as int % 16);
    assert HexDigits(digits, 1) == Some(c as int / 16);
    assert HexDigits(digits, 2) == Some(c as int);
    assert NumericEscape(s[1..]) == Some(Unit([c], 3));
  }

  lemma UnquoteEscaped(c: char, r: string)
    ensures UnquoteChar(EscapeChar(c) + r) == Some(Unit([c], |EscapeChar(c)|))
    ensures (EscapeChar(c) + r)[|EscapeChar(c)|..] == r
  {
    if 0x80 <= c as int <= 0xFF {
      UnquoteEscapedByte(c, r);
    }
  }

  lemma {:induction false} UnquoteEscape(s: string)
    ensures UnquoteBody(Escape(s)) == Some(s)
  {
    hide UnquoteChar, EscapeChar;
    if s != "" {
      UnquoteEscape(s[1..]);
      UnquoteEscaped(s[0], Escape(s[1..]));
      assert s == [s[0]] + s[1..];
    }
  }

  // ---------- Raw text ----------

  /** Text that needs no escape: no quote, backslash or newline. */
  predicate Plain(s: string) { forall i :: 0 <= i < |s| ==> s[i] != '"' && s[i] != '\\' && s[i] != '\n' }

  lemma {:induction false} RawGrows(s: string)
    requires Plain(s)
    ensures UnquoteBody(s).Some? && |UnquoteBody(s).value| >= |s|
    ensures UnquoteBody(s) == Some(s) <==> ValidUtf8(s)
    ensures !ValidUtf8(s) ==> |UnquoteBody(s).value| > |s|
    decreases |s|
  {
    if s != "" {
      var u := UnquoteChar(s).value;
      RawGrows(s[u.size..]);
      assert s == s[..u.size] + s[u.size..];
      assert [s[0]] == s[..1];
    }
  }

  /**
   A literal written without escapes keeps its bytes exactly when they are UTF-8:
   a byte that starts no rune is read as the replacement character.
   */
  lemma RawTextIff(s: string)
    requires Plain(s)
    ensures Unquote("\"" + s + "\"") == Some(s) <==> ValidUtf8(s)
  {
    var q := "\"" + s + "\"";
    assert q[1..|q| - 1] == s;
    RawGrows(s);
  }

  /** The byte FF on its own is read as three others. */
  lemma RawByteExample()
    ensures Unquote("\"" + "\U{FF}" + "\"") == Some(REPLACEMENT)
  {
    var q := "\"" + "\U{FF}" + "\"";
    assert q[1..|q| - 1] == "\U{FF}";
    assert "\U{FF}"[1..] == "" && REPLACEMENT + "" == REPLACEMENT;
    assert UnquoteChar("\U{FF}") == Some(Unit(REPLACEMENT, 1));
  }

  lemma SixBits(v: nat) returns (a: nat, b: nat)
    ensures a == v / 0x40 && b == v % 0x40 && v == a * 0x40 + b && b < 0x40
  {
    a, b := v / 0x40, v % 0x40;
  }

  lemma ThreeBytes(v: nat) returns (a: nat, b: nat, c: nat)
    requires 0x800 <= v < 0x1_0000
    ensures a == v / 0x1000 && b == v / 0x40 % 0x40 && c == v % 0x40
    ensures v == a * 0x1000 + b * 0x40 + c && a < 0x10 && b < 0x40 && c < 0x40
  {
    var h, l := SixBits(v);
    var hh, m := SixBits(h);
    a, b, c := hh, m, l;
    assert v / 0x1000 == hh;
  }

  lemma FourBytes(v: nat) returns (a: nat, b: nat, c: nat, d: nat)
    requires 0x1_0000 <= v <= 0x10FFFF
    ensures a == v / 0x4_0000 && b == v / 0x1000 % 0x40 && c == v / 0x40 % 0x40 && d == v % 0x40
    ensures v == a * 0x4_0000 + b * 0x1000 + c * 0x40 + d && a <= 4 && b < 0x40 && c < 0x40 && d < 0x40
  {
    var h, l := SixBits(v);
    var hh, m := SixBits(h);
    var hhh, n := SixBits(hh);
    a, b, c, d := hhh, n, m, l;
    assert v / 0x1000 == hh && v / 0x4_0000 == hhh;
  }

  /** A rune written as an escape comes out as the UTF-8 of a rune, whatever follows it. */
  lemma EncodedIsRune(v: nat, r: string)
    requires ValidRune(v)
    ensures RuneSize(EncodeRune(v) + r) == |EncodeRune(v)|
  {
    if v < 0x80 {
      RuneOfOne([Byte(v)] + r);
    } else if v < 0x800 {
      var a, b := SixBits(v);
      RuneOfTwo([Byte(0xC0 + a), Byte(0x80 + b)] + r);
    } else if v < 0x1_0000 {
      var a, b, c := ThreeBytes(v);
      RuneOfThree([Byte(0xE0 + a), Byte(0x80 + b), Byte(0x80 + c)] + r);
    } else {
      var a, b, c, d := FourBytes(v);
      RuneOfFour([Byte(0xF0 + a), Byte(0x80 + b), Byte(0x80 + c), Byte(0x80 + d)] + r);
    }
  }

  lemma RuneOfOne(s: string)
    requires Within(s, 0, 0, 0x7F)
    ensures RuneSize(s) == 1
  {
  }

  lemma RuneOfTwo(s: string)
    requires Within(s, 0, 0xC2, 0xDF) && Continues(s, 1)
    ensures RuneSize(s) == 2
  {
  }

  lemma RuneOfThree(s: string)
    requires Within(s, 0, 0xE0, 0xEF) && Continues(s, 1) && Continues(s, 2)
    requires s[0] as int == 0xE0 ==> s[1] as int >= 0xA0
    requires s[0] as int == 0xED ==> s[1] as int <= 0x9F
    ensures RuneSize(s) == 3
  {
  }

  lemma RuneOfFour(s: string)
    requires Within(s, 0, 0xF0, 0xF4) && Continues(s, 1) && Continues(s, 2) && Continues(s, 3)
    requires s[0] as int == 0xF0 ==> s[1] as int >= 0x90
    requires s[0] as int == 0xF4 ==> s[1] as int <= 0x8F
    ensures RuneSize(s) == 4
  {
  }
}

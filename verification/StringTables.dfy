/** What single bytes and runes of the string routines stand for, stated by their numbers. */
module StringTables {
  import opened Wrappers
  import opened Text
  import opened StringLiterals
  import ExprLexer

  // ---------- UTF-8 ----------

  /** The number n bytes of UTF-8 stand for. */
  function RuneValue(s: string): nat
    requires 0 < RuneSize(s) <= |s|
  {
    match RuneSize(s)
    case 1 => s[0] as nat
    case 2 => (s[0] as nat - 0xC0) * 0x40 + (s[1] as nat - 0x80)
    case 3 => ((s[0] as nat - 0xE0) * 0x40 + (s[1] as nat - 0x80)) * 0x40 + (s[2] as nat - 0x80)
    case _ => (((s[0] as nat - 0xF0) * 0x40 + (s[1] as nat - 0x80)) * 0x40 + (s[2] as nat - 0x80)) * 0x40 + (s[3] as nat - 0x80)
  }

  /** Encoding a rune and reading its bytes gives the rune back, whatever follows. */
  lemma EncodeDecode(v: nat, r: string)
    requires ValidRune(v)
    ensures var s := EncodeRune(v) + r; 0 < RuneSize(s) <= |s| && RuneSize(s) == |EncodeRune(v)| && RuneValue(s) == v
  {
    EncodedIsRune(v, r);
    if v < 0x80 {
    } else if v < 0x800 {
      var a, b := SixBits(v);
    } else if v < 0x1_0000 {
      var a, b, c := ThreeBytes(v);
    } else {
      var a, b, c, d := FourBytes(v);
    }
  }

  // ---------- White space ----------

  /** The white space of Unicode: property White_Space in version 15.0 of the standard. */
  predicate IsWhiteRune(v: nat)
  {
    || 0x09 <= v <= 0x0D || v == 0x20 || v == 0x85 || v == 0xA0 || v == 0x1680
    || 0x2000 <= v <= 0x200A || v == 0x2028 || v == 0x2029 || v == 0x202F || v == 0x205F || v == 0x3000
  }

  /** Trimming at the front looks at the first rune. */
  lemma FrontBlank(v: nat, r: string)
    requires ValidRune(v)
    ensures BlankSize(EncodeRune(v) + r) == if IsWhiteRune(v) then |EncodeRune(v)| else 0
  {
    var s := EncodeRune(v) + r;
    if v < 0x80 {
    } else if v < 0x800 {
      var a, b := SixBits(v);
      assert s[0] == Byte(0xC0 + a) && s[1] == Byte(0x80 + b);
    } else if v < 0x1_0000 {
      var a, b, c := ThreeBytes(v);
      assert s[0] == Byte(0xE0 + a) && s[1] == Byte(0x80 + b) && s[2] == Byte(0x80 + c);
    } else {
      var a, b, c, d := FourBytes(v);
      assert s[0] == Byte(0xF0 + a);
    }
  }

  /** Trimming at the end looks at the last rune. */
  lemma EndBlank(v: nat, r: string)
    requires ValidRune(v)
    ensures BlankTail(r + EncodeRune(v)) == if IsWhiteRune(v) then |EncodeRune(v)| else 0
  {
    hide BlankTail;
    var s := r + EncodeRune(v);
    var n := |s|;
    if v < 0x80 {
      LastByte(s, v);
    } else if v < 0x800 {
      var a, b := SixBits(v);
      assert s[n - 2] == Byte(0xC0 + a) && s[n - 1] == Byte(0x80 + b);
      LastTwo(s, a, b);
    } else if v < 0x1_0000 {
      var a, b, c := ThreeBytes(v);
      assert s[n - 3] == Byte(0xE0 + a) && s[n - 2] == Byte(0x80 + b) && s[n - 1] == Byte(0x80 + c);
      LastThree(s, a, b, c);
    } else {
      var a, b, c, d := FourBytes(v);
      assert s[n - 3] == Byte(0x80 + b) && s[n - 2] == Byte(0x80 + c) && s[n - 1] == Byte(0x80 + d);
      LastOfFour(s, b, c, d);
    }
  }

  lemma LastByte(s: string, v: nat)
    requires v < 0x80 && s != "" && s[|s| - 1] == Byte(v)
    ensures BlankTail(s) == if IsWhiteRune(v) then 1 else 0
  {
  }

  lemma LastTwo(s: string, a: nat, b: nat)
    requires 2 <= a < 0x20 && b < 0x40 && |s| >= 2
    requires s[|s| - 2] == Byte(0xC0 + a) && s[|s| - 1] == Byte(0x80 + b)
    ensures BlankTail(s) == if IsWhiteRune(0x40 * a + b) then 2 else 0
  {
  }

  lemma LastThree(s: string, a: nat, b: nat, c: nat)
    requires a < 0x10 && b < 0x40 && c < 0x40 && 0x1000 * a + 0x40 * b + c >= 0x800 && |s| >= 3
    requires s[|s| - 3] == Byte(0xE0 + a) && s[|s| - 2] == Byte(0x80 + b) && s[|s| - 1] == Byte(0x80 + c)
    ensures BlankTail(s) == if IsWhiteRune(0x1000 * a + 0x40 * b + c) then 3 else 0
  {
  }

  lemma LastOfFour(s: string, b: nat, c: nat, d: nat)
    requires b < 0x40 && c < 0x40 && d < 0x40 && |s| >= 3
    requires s[|s| - 3] == Byte(0x80 + b) && s[|s| - 2] == Byte(0x80 + c) && s[|s| - 1] == Byte(0x80 + d)
    ensures BlankTail(s) == 0
  {
  }

  // ---------- Escapes ----------

  /** An escape reads as the byte of that number. */
  ghost predicate Escapes(name: char, byte: nat, r: string)
    requires byte <= 0xFF
  {
    UnquoteChar(['\\', name] + r) == Some(Unit([Byte(byte)], 2))
  }

  lemma NamedEscapes(r: string)
    ensures Escapes('a', 7, r) && Escapes('b', 8, r) && Escapes('t', 9, r) && Escapes('n', 10, r) && Escapes('v', 11, r)
    ensures Escapes('f', 12, r) && Escapes('r', 13, r) && Escapes('"', 34, r) && Escapes('\\', 92, r)
  {
  }

  /** The digits of a number below 16, in small and in capital letters. */
  lemma HexDigitValues(d: nat)
    requires d < 16
    ensures HexValue("0123456789abcdef"[d]) == HexValue("0123456789ABCDEF"[d]) == Some(d)
  {
  }

  /** Octal escapes are read with their weights. */
  lemma OctalEscape(a: nat, b: nat, c: nat, r: string)
    requires a < 8 && b < 8 && c < 8
    ensures var s := ['\\', DigitChar(a), DigitChar(b), DigitChar(c)] + r; var v := 64 * a + 8 * b + c;
      UnquoteChar(s) == if v <= 0xFF then Some(Unit([Byte(v)], 4)) else None
  {
    var s := ['\\', DigitChar(a), DigitChar(b), DigitChar(c)] + r;
    assert s[1..][0] == DigitChar(a) && s[1..][1] == DigitChar(b) && s[1..][2] == DigitChar(c);
    assert Unescape(DigitChar(a)).None?;
    assert OctalValue(DigitChar(a)) == Some(a) && OctalValue(DigitChar(b)) == Some(b) && OctalValue(DigitChar(c)) == Some(c);
  }

  /** Four hexadecimal digits name a rune, and are refused when they name a surrogate. */
  lemma RuneEscape(a: nat, b: nat, c: nat, d: nat, r: string)
    requires a < 16 && b < 16 && c < 16 && d < 16
    ensures var s := ['\\', 'u', HexChar(a), HexChar(b), HexChar(c), HexChar(d)] + r;
      var v := 0x1000 * a + 0x100 * b + 0x10 * c + d;
      UnquoteChar(s) == if 0xD800 <= v < 0xE000 then None else Some(Unit(EncodeRune(v), 6))
  {
    hide EncodeRune;
    var s := ['\\', 'u', HexChar(a), HexChar(b), HexChar(c), HexChar(d)] + r;
    var digits := s[1..][1..];
    assert digits[0] == HexChar(a) && digits[1] == HexChar(b) && digits[2] == HexChar(c) && digits[3] == HexChar(d);
    assert HexDigits(digits, 1) == Some(a);
    assert HexDigits(digits, 2) == Some(16 * a + b);
    assert HexDigits(digits, 3) == Some(16 * (16 * a + b) + c);
    assert HexDigits(digits, 4) == Some(0x1000 * a + 0x100 * b + 0x10 * c + d);
    assert Unescape('u').None?;
  }

  // ---------- Bytes of the lexer ----------

  /** The bytes between tokens, by their codes. */
  lemma SpaceBytes(c: char)
    ensures ExprLexer.IsSpace(c) <==> 9 <= c as int <= 13 || c as int == 32 || c as int == 0x85 || c as int == 0xA0
  {
  }

  /** The bytes a name begins with: underscore, letters of ASCII and of Latin-1; digits may follow. */
  lemma NameBytes(c: char)
    ensures var n := c as int;
      && (ExprLexer.IsIdentStart(c) <==>
            n == 95 || 65 <= n <= 90 || 97 <= n <= 122 || n == 0xAA || n == 0xB5 || n == 0xBA
            || (0xC0 <= n <= 0xFF && n != 0xD7 && n != 0xF7))
      && (ExprLexer.IsIdentPart(c) <==> ExprLexer.IsIdentStart(c) || 48 <= n <= 57)
  {
  }
}

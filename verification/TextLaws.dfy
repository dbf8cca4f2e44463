/** What the small string functions do to concrete shapes of text. */
module TextLaws {
  import opened Wrappers
  import opened Text

  const DIGITS: string := "0123456789"

  // ---------- Numbers ----------

  /** Decimal notation: a digit for every number below ten, and the last digit last. */
  lemma DecimalDigits(n: nat, d: nat)
    requires d < 10
    ensures PrintDecimal(d) == [DIGITS[d]]
    ensures n > 0 ==> PrintDecimal(10 * n + d) == PrintDecimal(n) + [DIGITS[d]]
  {
    DigitIs(d);
    if n > 0 {
      assert (10 * n + d) / 10 == n && (10 * n + d) % 10 == d;
    }
  }

  lemma DigitIs(d: nat)
    requires d < 10
    ensures DigitChar(d) == DIGITS[d]
  {
  }

  /** `Atoi` reads a printed number, with or without a sign, when it is in range. */
  lemma AtoiReads(n: nat)
    ensures Atoi(PrintDecimal(n)) == Atoi("+" + PrintDecimal(n)) == if n <= 0x7FFF_FFFF_FFFF_FFFF then Some(n) else None
    ensures Atoi("-" + PrintDecimal(n)) == if n <= 0x8000_0000_0000_0000 then Some(-(n as int)) else None
  {
    var s := PrintDecimal(n);
    DecimalRoundTrip(n);
    assert IsDigit(s[0]);
    assert ("+" + s)[1..] == s && ("-" + s)[1..] == s;
  }

  /** It refuses text without digits, and text with a byte after the sign that is no digit. */
  lemma AtoiRefuses(s: string, i: nat)
    requires 0 < i < |s| && !IsDigit(s[i])
    ensures Atoi(s) == None && Atoi("") == None && Atoi("+") == None && Atoi("-") == None
  {
    assert s[i] == s[1..][i - 1];
    assert "+"[1..] == "" && "-"[1..] == "";
  }

  lemma AtoiRefusesFirst(s: string)
    requires s != "" && !IsDigit(s[0]) && s[0] != '+' && s[0] != '-'
    ensures Atoi(s) == None
  {
  }

  // ---------- Letter case ----------

  /** The capital letters are the codes 65 to 90, and each small letter comes 32 codes after its capital. */
  lemma LowerLetters(c: char)
    ensures LowerChar(c) as int == c as int + if 65 <= c as int <= 90 then 32 else 0
  {
  }

  /** For ASCII text folding is a matter of letter case alone. */
  lemma {:induction false} FoldsAscii(s: string, lower: string)
    requires forall i :: 0 <= i < |s| ==> s[i] as int < 0x80
    ensures FoldsTo(s, lower) <==> Lower(s) == lower
    decreases |lower|
  {
    if lower != "" && s != "" {
      FoldsAscii(s[1..], lower[1..]);
      assert Lower(s)[1..] == Lower(s[1..]);
      assert lower == [lower[0]] + lower[1..] && Lower(s) == [LowerChar(s[0])] + Lower(s[1..]);
      OtherBeginning(s, "\U{C5}\U{BF}");
      OtherBeginning(s, "\U{E2}\U{84}\U{AA}");
    }
  }

  lemma OtherBeginning(s: string, p: string)
    requires s != "" && p != "" && s[0] != p[0]
    ensures !HasPrefix(s, p)
  {
  }

  /** Beyond ASCII, U+017F folds to `s` and U+212A to `k`. */
  lemma FoldsBeyondAscii(s: string, lower: string)
    ensures FoldsTo("\U{C5}\U{BF}" + s, "s" + lower) <==> FoldsTo(s, lower)
    ensures FoldsTo("\U{E2}\U{84}\U{AA}" + s, "k" + lower) <==> FoldsTo(s, lower)
  {
    var long, kelvin := "\U{C5}\U{BF}" + s, "\U{E2}\U{84}\U{AA}" + s;
    assert long[2..] == s && kelvin[3..] == s;
    assert ("s" + lower)[1..] == lower && ("k" + lower)[1..] == lower;
  }

  // ---------- White space and quotes ----------

  lemma TrimmedNothing(s: string)
    requires BlankSize(s) == 0 && BlankTail(s) == 0
    ensures TrimSpace(s) == s
  {
  }

  /** One pair of equal quotes is removed, and no more. */
  lemma QuotesStripped(s: string)
    ensures StripQuotes("\"" + s + "\"") == s && StripQuotes("'" + s + "'") == s
    ensures StripQuotes("\"" + s + "'") == "\"" + s + "'" && StripQuotes("'" + s + "\"") == "'" + s + "\""
  {
    Between('"', s, '"');
    Between('\'', s, '\'');
    Between('"', s, '\'');
    Between('\'', s, '"');
  }

  lemma Between(a: char, s: string, b: char)
    requires (a == '"' || a == '\'') && (b == '"' || b == '\'')
    ensures StripQuotes([a] + s + [b]) == if a == b then s else [a] + s + [b]
  {
    var t := [a] + s + [b];
    assert t[|t| - 1] == b;
    assert BlankSize(t) == 0 && BlankTail(t) == 0;
    TrimmedNothing(t);
    assert t[1..|t| - 1] == s;
  }

  /** Text that neither begins nor ends with white space keeps its bytes when its ends are not equal quotes. */
  lemma UnquotedKept(s: string)
    requires BlankSize(s) == 0 && BlankTail(s) == 0
    requires |s| < 2 || s[0] != s[|s| - 1] || (s[0] != '"' && s[0] != '\'')
    ensures StripQuotes(s) == s
  {
    TrimmedNothing(s);
  }

  /** White space around the text goes first. */
  lemma BlanksStripped(s: string, c: char)
    requires c == ' ' || c == '\t'
    ensures TrimSpace([c] + s) == TrimSpace(s) && StripQuotes([c] + s) == StripQuotes(s)
  {
    var t := [c] + s;
    assert BlankSize(t) == 1 && t[1..] == s;
  }
}

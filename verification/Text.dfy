/**
 The small pieces of the `strings` and `strconv` packages the modelled code
 calls.  A `string` is a sequence of bytes, each written as the character of the
 same code.
 */
module Text {
  import opened Wrappers

  const MAX_INT64: int := 0x7FFF_FFFF_FFFF_FFFF
  const MIN_INT64: int := -0x8000_0000_0000_0000

  predicate IsDigit(c: char) { '0' <= c <= '9' }

  predicate AllDigits(s: string) { forall i :: 0 <= i < |s| ==> IsDigit(s[i]) }

  function DigitChar(d: nat): (c: char)
    requires d < 10
    ensures IsDigit(c)
  {
    '0' + d as char
  }

  function DigitValue(c: char): (d: nat)
    requires IsDigit(c)
    ensures d < 10
  {
    (c - '0') as nat
  }

  /** `%d` of a natural number. */
  function PrintDecimal(n: nat): (s: string)
    ensures s != "" && AllDigits(s)
  {
    if n < 10 then [DigitChar(n)] else PrintDecimal(n / 10) + [DigitChar(n % 10)]
  }

  function DecimalValue(s: string): nat
    requires AllDigits(s)
  {
    if s == "" then 0 else 10 * DecimalValue(s[..|s| - 1]) + DigitValue(s[|s| - 1])
  }

  /** Reading back what `%d` printed gives the number. */
  lemma {:induction false} DecimalRoundTrip(n: nat)
    ensures DecimalValue(PrintDecimal(n)) == n
  {
    if n >= 10 {
      DecimalRoundTrip(n / 10);
      var s := PrintDecimal(n);
      assert s[..|s| - 1] == PrintDecimal(n / 10);
    } else {
      assert PrintDecimal(n)[..0] == "";
    }
  }

  /** `strconv.Atoi` on a 64-bit platform: an optional sign, at least one digit, in range. */
  function Atoi(s: string): (r: Option<int>)
    ensures r.Some? ==> MIN_INT64 <= r.value <= MAX_INT64
  {
    var body := if s != "" && (s[0] == '+' || s[0] == '-') then s[1..] else s;
    if body == "" || !AllDigits(body) then None
    else
      var n: int := DecimalValue(body);
      var v := if s[0] == '-' then -n else n;
      if MIN_INT64 <= v <= MAX_INT64 then Some(v) else None
  }

  function LowerChar(c: char): (r: char)
    ensures 'A' <= c <= 'Z' || r == c
    ensures 'A' <= c <= 'Z' ==> 'a' <= r <= 'z'
  {
    if 'A' <= c <= 'Z' then 'a' + (c - 'A') else c
  }

  /** Lower-casing of ASCII text; other bytes are kept. */
  function Lower(s: string): (r: string)
    ensures |r| == |s|
    ensures forall i :: 0 <= i < |s| ==> r[i] == LowerChar(s[i])
  {
    seq(|s|, i requires 0 <= i < |s| => LowerChar(s[i]))
  }

  /**
   `strings.EqualFold` of s and a text of lower-case ASCII: beside the letter cases
   of ASCII, the long s folds to `s` and the Kelvin sign to `k`.
   */
  predicate FoldsTo(s: string, lower: string)
  {
    if lower == "" then s == ""
    else if s != "" && LowerChar(s[0]) == lower[0] then FoldsTo(s[1..], lower[1..])
    else if lower[0] == 's' && HasPrefix(s, "\U{C5}\U{BF}") then FoldsTo(s[2..], lower[1..])
    else lower[0] == 'k' && HasPrefix(s, "\U{E2}\U{84}\U{AA}") && FoldsTo(s[3..], lower[1..])
  }

  // ---------- White space ----------

  predicate IsBlank(c: char)
  {
    c == ' ' || '\t' <= c <= '\r'
  }

  /** The white space of two bytes: U+0085 and U+00A0. */
  predicate IsBlankPair(a: char, b: char) { a == '\U{C2}' && (b == '\U{85}' || b == '\U{A0}') }

  /** The white space of three bytes: U+1680, U+2000 to U+200A, U+2028, U+2029, U+202F, U+205F and U+3000. */
  predicate IsBlankTriple(a: char, b: char, c: char)
  {
    || (a == '\U{E1}' && b == '\U{9A}' && c == '\U{80}')
    || (a == '\U{E2}' && b == '\U{80}' && ('\U{80}' <= c <= '\U{8A}' || c == '\U{A8}' || c == '\U{A9}' || c == '\U{AF}'))
    || (a == '\U{E2}' && b == '\U{81}' && c == '\U{9F}')
    || (a == '\U{E3}' && b == '\U{80}' && c == '\U{80}')
  }

  /** The bytes of the white space s starts with (`unicode.IsSpace`); 0 when it starts with none. */
  function BlankSize(s: string): (n: nat)
    ensures n <= |s|
  {
    if s == "" then 0
    else if IsBlank(s[0]) then 1
    else if |s| >= 2 && IsBlankPair(s[0], s[1]) then 2
    else if |s| >= 3 && IsBlankTriple(s[0], s[1], s[2]) then 3
    else 0
  }

  /** The bytes of the white space s ends with; 0 when it ends with none. */
  function BlankTail(s: string): (n: nat)
    ensures n <= |s|
  {
    var n := |s|;
    if n == 0 then 0
    else if IsBlank(s[n - 1]) then 1
    else if n >= 2 && IsBlankPair(s[n - 2], s[n - 1]) then 2
    else if n >= 3 && IsBlankTriple(s[n - 3], s[n - 2], s[n - 1]) then 3
    else 0
  }

  function TrimLeft(s: string): string
  {
    if BlankSize(s) > 0 then TrimLeft(s[BlankSize(s)..]) else s
  }

  function TrimRight(s: string): string
  {
    if BlankTail(s) > 0 then TrimRight(s[..|s| - BlankTail(s)]) else s
  }

  /** `strings.TrimSpace`. */
  function TrimSpace(s: string): string { TrimRight(TrimLeft(s)) }

  /** `stripQuotes`: trims, then removes one matching pair of quotes. */
  function StripQuotes(s: string): string
  {
    var t := TrimSpace(s);
    if |t| >= 2 && ((t[0] == '"' && t[|t| - 1] == '"') || (t[0] == '\'' && t[|t| - 1] == '\''))
    then t[1..|t| - 1] else t
  }

  predicate HasPrefix(s: string, p: string) { |p| <= |s| && s[..|p|] == p }
}

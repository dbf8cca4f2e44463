/**
 Names and paths are compared in lower case.  Beyond ASCII the conversion is a
 parameter: any function that obeys the laws below may stand for it.
 */
module LetterCase {
  import opened Text
  import opened ExprLexer

  predicate IsAscii(s: string) { forall i :: 0 <= i < |s| ==> s[i] as int < 0x80 }

  /** The text of an identifier token. */
  predicate IsIdentText(t: string) { t != "" && IsIdentStart(t[0]) && All(t, IsIdentPart) }

  /** A byte of a name in lower case: a letter, digit or underscore of ASCII, or another byte that is no space to the lexer. */
  predicate IsNameByte(c: char)
  {
    'a' <= c <= 'z' || IsDigit(c) || c == '_' || (c as int >= 0x80 && !IsSpace(c))
  }

  predicate IsLowered(s: string) { s != "" && !IsDigit(s[0]) && All(s, IsNameByte) }

  /** What is assumed of lower-casing: it is that of ASCII there, and identifiers are settled by it and stay free of other ASCII. */
  ghost predicate IsLowering(f: string -> string)
  {
    && (forall s :: IsAscii(s) ==> f(s) == Lower(s))
    && (forall t :: IsIdentText(t) ==> IsLowered(f(t)) && f(f(t)) == f(t))
  }

  lemma LowerIsLowering()
    ensures IsLowering(Lower)
  {
    forall t | IsIdentText(t) ensures IsLowered(Lower(t)) && Lower(Lower(t)) == Lower(t) {
      var l := Lower(t);
      forall i | 0 <= i < |l| ensures IsNameByte(l[i]) {
        assert IsIdentPart(t[i]);
      }
    }
  }

  type Lowering = f: string -> string | IsLowering(f) witness (LowerIsLowering(); Lower)

  /** `strings.ToLower`. */
  const TO_LOWER: Lowering

  function ToLower(s: string): string { TO_LOWER(s) }

  lemma ToLowerAscii(s: string)
    requires IsAscii(s)
    ensures ToLower(s) == Lower(s)
  {
    assert IsLowering(TO_LOWER);
  }

  lemma ToLowerIdent(t: string)
    requires IsIdentText(t)
    ensures IsLowered(ToLower(t)) && ToLower(ToLower(t)) == ToLower(t)
  {
    assert IsLowering(TO_LOWER);
  }
}

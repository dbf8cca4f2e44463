/** Which headers, keys, types and values the pairing of lines is about, as they are written. */
module AdapterLaws {
  import opened Wrappers
  import opened Text
  import opened LetterCase
  import opened Adapter
  import TextLaws

  /** A word of ASCII without white space. */
  predicate IsWord(w: string) { w != "" && IsAscii(w) && forall i :: 0 <= i < |w| ==> !IsBlank(w[i]) }

  /** Nothing, or white space and more. */
  predicate AfterWord(rest: string) { IsAscii(rest) && (rest != "" ==> IsBlank(rest[0])) }

  lemma AsciiBlank(s: string)
    requires IsAscii(s)
    ensures BlankSize(s) == if s != "" && IsBlank(s[0]) then 1 else 0
    ensures BlankTail(s) == if s != "" && IsBlank(s[|s| - 1]) then 1 else 0
  {
  }

  lemma {:induction false} FirstWordIs(w: string, rest: string)
    requires (w == "" || IsWord(w)) && AfterWord(rest)
    ensures Word(w + rest) == w
  {
    hide IsWord, AfterWord, BlankSize;
    WordBegins(w, rest);
    if w != "" {
      FirstWordIs(w[1..], rest);
      assert (w + rest)[1..] == w[1..] + rest;
    } else {
      assert w + rest == rest;
    }
  }

  lemma WordBegins(w: string, rest: string)
    requires (w == "" || IsWord(w)) && AfterWord(rest)
    ensures w != "" ==> BlankSize(w + rest) == 0 && (w[1..] == "" || IsWord(w[1..]))
    ensures w == "" && rest != "" ==> BlankSize(rest) > 0
  {
    if w != "" {
      assert (w + rest)[0] == w[0];
      AsciiBlank(w + rest);
    }
  }

  lemma LowerOfWord(w: string, rest: string)
    requires IsWord(w) && AfterWord(rest)
    ensures IsWord(Lower(w)) && AfterWord(Lower(rest)) && ToLower(w + rest) == Lower(w) + Lower(rest)
  {
    ToLowerAscii(w + rest);
    assert Lower(w + rest) == Lower(w) + Lower(rest);
  }

  // ---------- Headers ----------

  /** The first word of a header tells the kind of its section. */
  lemma HeaderKinds(w: string, rest: string)
    requires IsWord(w) && AfterWord(rest)
    ensures KindOf(w + rest) == match Lower(w)
      case "statedef" => StatedefSection
      case "state" => StateSection
      case "command" => CommandSection
      case _ => OtherSection
  {
    LowerOfWord(w, rest);
    var l := Lower(w) + Lower(rest);
    AsciiBlank(l);
    assert l[0] == Lower(w)[0];
    assert TrimLeft(l) == l;
    FirstWordIs(Lower(w), Lower(rest));
  }

  /** A header that opens a state section: `[State ...]` in any letter case. */
  lemma StateHeaders(t: Token, w: string, rest: string)
    requires t.kind == SectionToken && IsWord(w) && AfterWord(rest) && t.text == w + rest
    requires rest == "" || !IsBlank(rest[|rest| - 1])
    ensures OpensState(t) <==> Lower(w) == "state"
  {
    HeaderKinds(w, rest);
    AsciiBlank(t.text);
    assert t.text[0] == w[0];
    TextLaws.TrimmedNothing(t.text);
  }

  // ---------- Lines ----------

  /** The two keys the controller looks at. */
  lemma LineKeys(t: Token)
    requires IsAscii(t.key)
    ensures IsType(t) <==> t.kind == KeyValueToken && Lower(t.key) == "type"
    ensures IsValue(t) <==> t.kind == KeyValueToken && Lower(t.key) == "value"
  {
    ToLowerAscii(t.key);
  }

  /** The two types that change state, in any letter case, bare or quoted. */
  lemma TransitionTypes(t: Token, w: string)
    requires IsType(t) && IsWord(w) && w[0] != '"' && w[0] != '\''
    requires t.value == w || t.value == "\"" + w + "\"" || t.value == "'" + w + "'"
    ensures IsTransition(t) <==> Lower(w) == "changestate" || Lower(w) == "selfstate"
  {
    hide StripQuotes;
    AsciiBlank(w);
    TextLaws.UnquotedKept(w);
    TextLaws.QuotesStripped(w);
    ToLowerAscii(w);
  }

  /** The state a value names: its text, unquoted, where `+1` stands for state -10. */
  lemma ValueTexts(t: Token, s: string)
    requires BlankSize(s) == 0 && BlankTail(s) == 0 && (s == "" || (s[0] != '"' && s[0] != '\''))
    requires t.value == s || t.value == "\"" + s + "\"" || t.value == "'" + s + "'"
    ensures Stripped(t) == if s == "+1" then "-10" else s
  {
    hide StripQuotes;
    TextLaws.TrimmedNothing(s);
    TextLaws.UnquotedKept(s);
    TextLaws.QuotesStripped(s);
    QuotedTrims(s);
  }

  lemma QuotedTrims(s: string)
    ensures TrimSpace("\"" + s + "\"") == "\"" + s + "\"" && TrimSpace("'" + s + "'") == "'" + s + "'"
  {
    var a, b := "\"" + s + "\"", "'" + s + "'";
    assert a[|a| - 1] == '"' && b[|b| - 1] == '\'';
    TextLaws.TrimmedNothing(a);
    TextLaws.TrimmedNothing(b);
  }

  // ---------- One controller ----------

  /**
   A state section with one `type` line that changes state and one `value` line refers
   to the state the value names, whichever line comes first; the reference stands at the
   value and its id is made of the line that completes the pair.
   */
  lemma OneController(header: Token, typeLine: Token, valueLine: Token, first: string)
    requires OpensState(header) && IsTransition(typeLine) && IsValue(valueLine)
    requires first == Stripped(valueLine)
    ensures var after := [header, typeLine, valueLine];
      Declared(after, 3, 3) ==
        if first == "" then [] else [Reference(first, valueLine.line, valueLine.line, Atoi(first).None?)]
    ensures var before := [header, valueLine, typeLine];
      Declared(before, 3, 3) ==
        if first == "" then [] else [Reference(first, valueLine.line, typeLine.line, Atoi(first).None?)]
  {
    hide Stripped, Declared, Means, OpensState, IsTransition, IsType, IsValue, IsHeader;
    var after, before := [header, typeLine, valueLine], [header, valueLine, typeLine];
    Marks(header);
    Marks(typeLine);
    Marks(valueLine);
    RunMeans(after, 3);
    RunMeans(before, 3);
    RunOfThree(after);
    RunOfThree(before);
  }

  lemma RunOfThree(ts: seq<Token>)
    requires |ts| == 3
    ensures Run(ts, 3) == Step(ts, Step(ts, Step(ts, Machine(false, false, None, []), 0), 1), 2)
  {
    hide Step;
    assert Run(ts, 1) == Step(ts, Run(ts, 0), 0) && Run(ts, 2) == Step(ts, Run(ts, 1), 1);
  }

  /** With another type, or none, it refers to nothing. */
  lemma OtherControllers(header: Token, typeLine: Token, valueLine: Token)
    requires OpensState(header) && IsType(typeLine) && !IsTransition(typeLine) && IsValue(valueLine)
    ensures Declared([header, typeLine, valueLine], 3, 3) == [] == Declared([header, valueLine, typeLine], 3, 3)
  {
    hide Stripped, Declared, Means, OpensState, IsTransition, IsType, IsValue, IsHeader;
    var after, before := [header, typeLine, valueLine], [header, valueLine, typeLine];
    Marks(header);
    Marks(typeLine);
    Marks(valueLine);
    RunMeans(after, 3);
    RunMeans(before, 3);
    RunOfThree(after);
    RunOfThree(before);
  }
}

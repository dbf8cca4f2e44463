/**
 From syntax tokens to state references.  A controller object scans the lines of a
 state section once and pairs its `type` and `value` lines; the theorem says which
 `value` lines become references, in terms of the token list alone.
 */
module Adapter {
  import opened Wrappers
  import opened Text
  import opened LetterCase

  datatype TokenKind = SectionToken | KeyValueToken | CommentToken | BlankToken | MalformedToken

  datatype Token = Token(kind: TokenKind, line: nat, text: string, key: string, value: string)

  datatype SectionKind = StatedefSection | StateSection | CommandSection | OtherSection

  /** A reference to a state: its text, the line of its value, the line its id is made of, and whether it is computed. */
  datatype Reference = Reference(target: string, valueLine: nat, idLine: nat, isDynamic: bool)

  /** The bytes of s before its first white space. */
  function Word(s: string): string
  {
    if s == "" || BlankSize(s) > 0 then "" else [s[0]] + Word(s[1..])
  }

  /** The first of `strings.Fields`. */
  function FirstWord(s: string): string { Word(TrimLeft(s)) }

  function KindOf(header: string): SectionKind
  {
    var word := FirstWord(ToLower(header));
    if word == "statedef" then StatedefSection
    else if word == "state" then StateSection
    else if word == "command" then CommandSection
    else OtherSection
  }

  // ---------- The tokens that matter ----------

  predicate IsHeader(t: Token) { t.kind == SectionToken }

  /** A header that opens a state section: one whose text is not empty and starts with `state`. */
  predicate OpensState(t: Token)
  {
    IsHeader(t) && TrimSpace(t.text) != "" && KindOf(TrimSpace(t.text)) == StateSection
  }

  predicate IsType(t: Token) { t.kind == KeyValueToken && ToLower(t.key) == "type" }

  predicate IsValue(t: Token) { t.kind == KeyValueToken && ToLower(t.key) == "value" }

  predicate IsTransitionType(controllerType: string)
  {
    controllerType == "changestate" || controllerType == "selfstate"
  }

  /** A `type` line of a controller that changes state. */
  predicate IsTransition(t: Token) { IsType(t) && IsTransitionType(ToLower(StripQuotes(t.value))) }

  /** Tokens that change what the controller waits for. */
  predicate IsMark(t: Token) { IsHeader(t) || IsType(t) || IsValue(t) }

  /** How the kinds of token exclude each other. */
  lemma Marks(t: Token)
    ensures OpensState(t) ==> IsHeader(t)
    ensures IsHeader(t) ==> IsMark(t) && !IsType(t) && !IsValue(t)
    ensures IsType(t) ==> IsMark(t) && !IsHeader(t) && !IsValue(t)
    ensures IsValue(t) ==> IsMark(t) && !IsHeader(t) && !IsType(t)
    ensures IsTransition(t) ==> IsType(t)
    ensures IsMark(t) ==> IsHeader(t) || IsType(t) || IsValue(t)
  {
  }

  /** `normalizeStateReferenceValue`. */
  function Normalize(value: string): string { if TrimSpace(value) == "+1" then "-10" else value }

  /** The text of a value line once trimmed and unquoted. */
  function Stripped(t: Token): string { Normalize(StripQuotes(TrimSpace(t.value))) }

  // ---------- What should be emitted ----------

  /** Position i lies in a state section: the last header before it opens one. */
  ghost predicate InState(ts: seq<Token>, i: nat)
    requires i <= |ts|
  {
    exists h :: 0 <= h < i && OpensState(ts[h]) && forall j :: h < j < i ==> !IsHeader(ts[j])
  }

  /** The type in force at position i changes state: it is the last `type` line since the header. */
  ghost predicate InForce(ts: seq<Token>, i: nat)
    requires i <= |ts|
  {
    exists t :: 0 <= t < i && IsTransition(ts[t]) && forall j :: t < j < i ==> !IsHeader(ts[j]) && !IsType(ts[j])
  }

  /** The next header, `type` or `value` line after i, among the first n tokens, is a `type` that changes state. */
  ghost predicate LeadsTo(ts: seq<Token>, i: nat, n: nat)
    requires n <= |ts|
  {
    exists t :: i < t < n && IsTransition(ts[t]) && forall j :: i < j < t ==> !IsMark(ts[j])
  }

  /** Token i is emitted once the first n tokens are read. */
  ghost predicate Emits(ts: seq<Token>, i: nat, n: nat)
    requires i < n <= |ts|
  {
    InState(ts, i) && IsValue(ts[i]) && Stripped(ts[i]) != "" && (InForce(ts, i) || LeadsTo(ts, i, n))
  }

  /** The position of the first mark from i on. */
  function NextMark(ts: seq<Token>, i: nat): (j: nat)
    requires i <= |ts|
    ensures i <= j <= |ts| && (j < |ts| ==> IsMark(ts[j]))
    ensures forall k :: i <= k < j ==> !IsMark(ts[k])
    decreases |ts| - i
  {
    if i == |ts| || IsMark(ts[i]) then i else NextMark(ts, i + 1)
  }

  /** The reference of value line i whose pairing is completed by token `at`. */
  function ReferenceAt(ts: seq<Token>, i: nat, at: nat): Reference
    requires i < |ts| && at < |ts|
  {
    var target := Stripped(ts[i]);
    Reference(target, ts[i].line, ts[at].line, Atoi(target).None?)
  }

  /** The reference a value line stands for: paired at once when a type is in force, else by the next mark. */
  ghost function ReferenceOf(ts: seq<Token>, i: nat): Reference
    requires i < |ts|
  {
    var next := NextMark(ts, i + 1);
    ReferenceAt(ts, i, if InForce(ts, i) || next == |ts| then i else next)
  }

  /** The references of the value lines among the first m tokens that the first n tokens emit, in order. */
  ghost function Declared(ts: seq<Token>, m: nat, n: nat): seq<Reference>
    requires m <= n <= |ts|
  {
    if m == 0 then []
    else Declared(ts, m - 1, n) + (if Emits(ts, m - 1, n) then [ReferenceOf(ts, m - 1)] else [])
  }

  // ---------- The machine ----------

  /** `inState` with the controller's type and the position of the value it holds back. */
  datatype Machine = Machine(inState: bool, inForce: bool, pending: Option<nat>, refs: seq<Reference>)

  function Emit(ts: seq<Token>, i: nat, at: nat): seq<Reference>
    requires i < |ts| && at < |ts|
  {
    if Stripped(ts[i]) == "" then [] else [ReferenceAt(ts, i, at)]
  }

  predicate Fits(ts: seq<Token>, m: Machine) { m.pending.Some? ==> m.pending.value < |ts| }

  /** One token. */
  function Step(ts: seq<Token>, m: Machine, k: nat): (r: Machine)
    requires k < |ts| && Fits(ts, m)
    ensures Fits(ts, r)
  {
    var t := ts[k];
    if IsHeader(t) then Machine(OpensState(t), false, None, m.refs)
    else if !m.inState then m
    else if IsType(t) then
      var emitted := if IsTransition(t) && m.pending.Some? then Emit(ts, m.pending.value, k) else [];
      Machine(true, IsTransition(t), None, m.refs + emitted)
    else if IsValue(t) then
      if m.inForce then m.(pending := None, refs := m.refs + Emit(ts, k, k)) else m.(pending := Some(k))
    else m
  }

  function Run(ts: seq<Token>, k: nat): (m: Machine)
    requires k <= |ts|
    ensures Fits(ts, m)
  {
    if k == 0 then Machine(false, false, None, []) else Step(ts, Run(ts, k - 1), k - 1)
  }

  // ---------- The machine means what is declared ----------

  lemma InStateStep(ts: seq<Token>, k: nat)
    requires k < |ts|
    ensures InState(ts, k + 1) <==> if IsHeader(ts[k]) then OpensState(ts[k]) else InState(ts, k)
  {
    hide OpensState, IsHeader, IsType, IsValue, IsTransition, IsMark, Stripped;
    Marks(ts[k]);
    if InState(ts, k + 1) {
      var h :| 0 <= h < k + 1 && OpensState(ts[h]) && forall j :: h < j < k + 1 ==> !IsHeader(ts[j]);
    }
    if !IsHeader(ts[k]) && InState(ts, k) {
      var h :| 0 <= h < k && OpensState(ts[h]) && forall j :: h < j < k ==> !IsHeader(ts[j]);
      assert h < k + 1;
    }
  }

  lemma InForceStep(ts: seq<Token>, k: nat)
    requires k < |ts|
    ensures InForce(ts, k + 1) <==>
      if IsHeader(ts[k]) then false else if IsType(ts[k]) then IsTransition(ts[k]) else InForce(ts, k)
  {
    hide OpensState, IsHeader, IsType, IsValue, IsTransition, IsMark, Stripped;
    Marks(ts[k]);
    if InForce(ts, k + 1) {
      var t :| 0 <= t < k + 1 && IsTransition(ts[t]) && forall j :: t < j < k + 1 ==> !IsHeader(ts[j]) && !IsType(ts[j]);
    }
    if !IsHeader(ts[k]) && !IsType(ts[k]) && InForce(ts, k) {
      var t :| 0 <= t < k && IsTransition(ts[t]) && forall j :: t < j < k ==> !IsHeader(ts[j]) && !IsType(ts[j]);
      assert t < k + 1;
    }
  }

  /** v is the last mark before k, a value line of a state section with no type in force: it waits for a type. */
  ghost predicate Waits(ts: seq<Token>, v: nat, k: nat)
    requires k <= |ts|
  {
    && v < k && InState(ts, v) && IsValue(ts[v]) && !InForce(ts, v)
    && forall j :: v < j < k ==> !IsMark(ts[j])
  }

  /** The controller's fields are what the tokens read so far say. */
  ghost predicate Means(ts: seq<Token>, m: Machine, k: nat)
    requires k <= |ts|
  {
    && (m.inState <==> InState(ts, k))
    && (m.inState ==> (m.inForce <==> InForce(ts, k)))
    && (m.pending.Some? ==> m.inState && Waits(ts, m.pending.value, k))
    && (forall v: nat :: Waits(ts, v, k) ==> m.pending == Some(v))
  }

  lemma MeansStep(ts: seq<Token>, m: Machine, k: nat)
    requires k < |ts| && Fits(ts, m) && Means(ts, m, k)
    ensures Means(ts, Step(ts, m, k), k + 1)
  {
    hide OpensState, IsHeader, IsType, IsValue, IsTransition, IsMark, Stripped;
    hide InState, InForce;
    Marks(ts[k]);
    InStateStep(ts, k);
    InForceStep(ts, k);
    var r := Step(ts, m, k);
    forall v: nat | Waits(ts, v, k + 1) ensures r.pending == Some(v) {
      if v < k {
        assert !IsMark(ts[k]) && Waits(ts, v, k);
      }
    }
    if r.pending.Some? && r.pending.value < k {
      assert Waits(ts, r.pending.value, k);
    }
  }

  /** Reading one more token emits at most the value line that waited, and only a transition type does that. */
  lemma EmitsStep(ts: seq<Token>, i: nat, k: nat)
    requires i < k < |ts|
    ensures Emits(ts, i, k + 1) <==>
      Emits(ts, i, k) || (IsTransition(ts[k]) && Waits(ts, i, k) && Stripped(ts[i]) != "")
    ensures IsTransition(ts[k]) && Waits(ts, i, k) ==> !Emits(ts, i, k) && NextMark(ts, i + 1) == k
  {
    hide OpensState, IsHeader, IsType, IsValue, IsTransition, IsMark, Stripped;
    hide InState, InForce, NextMark;
    Marks(ts[k]);
    FirstMarkIs(ts, i, k);
    if LeadsTo(ts, i, k + 1) {
      var t :| i < t < k + 1 && IsTransition(ts[t]) && forall j :: i < j < t ==> !IsMark(ts[j]);
      if t < k {
        assert LeadsTo(ts, i, k);
      }
    }
    if LeadsTo(ts, i, k) {
      var t :| i < t < k && IsTransition(ts[t]) && forall j :: i < j < t ==> !IsMark(ts[j]);
      Marks(ts[t]);
      assert t < k + 1;
    }
  }

  lemma FirstMarkIs(ts: seq<Token>, i: nat, k: nat)
    requires i < k < |ts|
    ensures IsMark(ts[k]) && (forall j :: i < j < k ==> !IsMark(ts[j])) ==> NextMark(ts, i + 1) == k
  {
  }

  lemma {:induction false} DeclaredSame(ts: seq<Token>, m: nat, k: nat)
    requires m <= k < |ts|
    requires forall i :: 0 <= i < m ==> !(IsTransition(ts[k]) && Waits(ts, i, k) && Stripped(ts[i]) != "")
    ensures Declared(ts, m, k + 1) == Declared(ts, m, k)
  {
    hide Emits, Waits, IsTransition, Stripped;
    if m > 0 {
      DeclaredSame(ts, m - 1, k);
      EmitsStep(ts, m - 1, k);
    }
  }

  /** The value line that waited is the last of the declared ones. */
  lemma {:induction false} DeclaredWaiting(ts: seq<Token>, v: nat, m: nat, k: nat)
    requires v < m <= k < |ts| && IsTransition(ts[k]) && Waits(ts, v, k)
    ensures Declared(ts, m, k + 1) == Declared(ts, m, k) + Emit(ts, v, k)
    decreases m
  {
    hide Emits, Waits, IsTransition, Stripped, ReferenceOf, InForce;
    EmitsStep(ts, m - 1, k);
    if m - 1 == v {
      forall i: nat | i < v ensures !Waits(ts, i, k) {
        OneWaits(ts, i, v, k);
      }
      DeclaredSame(ts, v, k);
      WaitingReference(ts, v, k);
      assert Declared(ts, v, k) + [] == Declared(ts, v, k);
    } else {
      DeclaredWaiting(ts, v, m - 1, k);
      NothingBetween(ts, v, m - 1, k);
      assert Declared(ts, m, k + 1) == Declared(ts, m - 1, k + 1) + [];
      assert Declared(ts, m, k) == Declared(ts, m - 1, k) + [];
    }
  }

  lemma OneWaits(ts: seq<Token>, i: nat, v: nat, k: nat)
    requires i < v < k <= |ts| && Waits(ts, v, k)
    ensures !Waits(ts, i, k)
  {
    Marks(ts[v]);
  }

  /** A line after the waiting one is no mark: it neither waits nor is emitted. */
  lemma NothingBetween(ts: seq<Token>, v: nat, i: nat, k: nat)
    requires v < i < k < |ts| && Waits(ts, v, k)
    ensures !Waits(ts, i, k) && !Emits(ts, i, k) && !Emits(ts, i, k + 1)
  {
    Marks(ts[i]);
    assert !IsMark(ts[i]);
  }

  lemma WaitingReference(ts: seq<Token>, v: nat, k: nat)
    requires v < k < |ts| && IsTransition(ts[k]) && Waits(ts, v, k)
    ensures NextMark(ts, v + 1) == k && ReferenceOf(ts, v) == ReferenceAt(ts, v, k)
  {
    Marks(ts[k]);
    FirstMarkIs(ts, v, k);
  }

  lemma DeclaredStep(ts: seq<Token>, m: Machine, k: nat)
    requires k < |ts| && Fits(ts, m) && Means(ts, m, k) && m.refs == Declared(ts, k, k)
    ensures Step(ts, m, k).refs == Declared(ts, k + 1, k + 1)
  {
    hide OpensState, IsHeader, IsType, IsValue, IsTransition, IsMark, Stripped, InState, InForce;
    var t := ts[k];
    Marks(t);
    assert !LeadsTo(ts, k, k + 1);
    if IsTransition(t) && m.pending.Some? {
      DeclaredWaiting(ts, m.pending.value, k, k);
    } else {
      DeclaredSame(ts, k, k);
    }
    assert Emits(ts, k, k + 1) <==> InState(ts, k) && IsValue(t) && Stripped(t) != "" && InForce(ts, k);
    assert Declared(ts, k + 1, k + 1) ==
      Declared(ts, k, k + 1) + (if Emits(ts, k, k + 1) then [ReferenceOf(ts, k)] else []);
  }

  lemma {:induction false} RunMeans(ts: seq<Token>, k: nat)
    requires k <= |ts|
    ensures Means(ts, Run(ts, k), k) && Run(ts, k).refs == Declared(ts, k, k)
  {
    if k > 0 {
      RunMeans(ts, k - 1);
      MeansStep(ts, Run(ts, k - 1), k - 1);
      DeclaredStep(ts, Run(ts, k - 1), k - 1);
    }
  }

  // ---------- The objects of the source ----------

  /** The part of a parsed document this module fills. */
  class Document {
    var references: seq<Reference>

    constructor ()
      ensures references == []
    {
      references := [];
    }
  }

  /** The pending state of one state section. */
  class StateController {
    var controllerType: string
    var pendingValue: string
    var pendingLine: nat
    var pendingPresent: bool

    constructor ()
      ensures controllerType == "" && !pendingPresent
    {
      controllerType, pendingValue, pendingLine, pendingPresent := "", "", 0, false;
    }

    /** The fields agree with the machine. */
    ghost predicate Holds(ts: seq<Token>, m: Machine)
      reads this
      requires Fits(ts, m)
    {
      && m.inState
      && (m.inForce <==> IsTransitionType(controllerType))
      && (m.pending.Some? <==> pendingPresent)
      && (m.pending.Some? ==> pendingValue == TrimSpace(ts[m.pending.value].value) && pendingLine == ts[m.pending.value].line)
    }

    /** Emits the pending value if the type in force changes state; the value is consumed either way. */
    method EmitStateReference(doc: Document, fallbackLine: nat)
      modifies this`pendingPresent, doc
      ensures !pendingPresent
      ensures doc.references == old(doc.references) +
        (if old(pendingPresent) && IsTransitionType(controllerType)
         then Pending(pendingValue, pendingLine, fallbackLine) else [])
    {
      if !pendingPresent {
        return;
      }
      var value := TrimSpace(pendingValue);
      pendingPresent := false;
      if !IsTransitionType(controllerType) {
        return;
      }
      value := Normalize(StripQuotes(value));
      TrimTwice(pendingValue);
      if value == "" {
        return;
      }
      doc.references := doc.references + [Reference(value, pendingLine, fallbackLine, Atoi(value).None?)];
    }
  }

  /** What a pending value is emitted as. */
  function Pending(pendingValue: string, valueLine: nat, idLine: nat): seq<Reference>
  {
    var value := Normalize(StripQuotes(TrimSpace(pendingValue)));
    if value == "" then [] else [Reference(value, valueLine, idLine, Atoi(value).None?)]
  }

  lemma {:induction false} TrimLeftDone(s: string)
    ensures BlankSize(TrimLeft(s)) == 0
    decreases |s|
  {
    if BlankSize(s) > 0 {
      TrimLeftDone(s[BlankSize(s)..]);
    }
  }

  lemma {:induction false} TrimRightDone(s: string)
    ensures BlankTail(TrimRight(s)) == 0 && TrimRight(s) <= s
    decreases |s|
  {
    if BlankTail(s) > 0 {
      TrimRightDone(s[..|s| - BlankTail(s)]);
    }
  }

  /** Trimming a trimmed text changes nothing. */
  lemma TrimTwice(s: string)
    ensures TrimSpace(TrimSpace(s)) == TrimSpace(s)
  {
    var l := TrimLeft(s);
    TrimLeftDone(s);
    TrimRightDone(l);
    assert BlankSize(TrimRight(l)) == 0;
  }

  /** The scan over all tokens: the references are exactly the declared ones, in order. */
  method FromSyntax(ts: seq<Token>) returns (doc: Document)
    ensures fresh(doc) && doc.references == Declared(ts, |ts|, |ts|)
  {
    doc := new Document();
    var controller: StateController? := null;
    for k := 0 to |ts|
      invariant fresh(doc) && doc.references == Run(ts, k).refs
      invariant controller == null ==> !Run(ts, k).inState
      invariant controller != null ==> fresh(controller) && controller.Holds(ts, Run(ts, k))
    {
      var t := ts[k];
      if t.kind == SectionToken {
        var header := TrimSpace(t.text);
        controller := null;
        if header != "" && KindOf(header) == StateSection {
          controller := new StateController();
        }
      } else if t.kind == KeyValueToken && controller != null {
        ControllerLine(controller, doc, ts, k, Run(ts, k));
      }
      assert Run(ts, k + 1) == Step(ts, Run(ts, k), k);
    }
    RunMeans(ts, |ts|);
  }

  /** A key-value line of a state section. */
  method ControllerLine(controller: StateController, doc: Document, ts: seq<Token>, k: nat, ghost m: Machine)
    requires k < |ts| && ts[k].kind == KeyValueToken && Fits(ts, m)
    requires controller.Holds(ts, m) && doc.references == m.refs
    modifies controller, doc
    ensures controller.Holds(ts, Step(ts, m, k)) && doc.references == Step(ts, m, k).refs
  {
    var t := ts[k];
    var key := ToLower(t.key);
    if key == "type" {
      controller.controllerType := ToLower(StripQuotes(t.value));
      if !IsTransitionType(controller.controllerType) {
        controller.pendingValue := "";
        controller.pendingPresent := false;
        return;
      }
      PendingIsEmit(ts, m, k);
      controller.EmitStateReference(doc, t.line);
    } else if key == "value" {
      controller.pendingValue := TrimSpace(t.value);
      controller.pendingLine := t.line;
      controller.pendingPresent := true;
      TrimTwice(t.value);
      if IsTransitionType(controller.controllerType) {
        controller.EmitStateReference(doc, t.line);
      }
    }
  }

  lemma PendingIsEmit(ts: seq<Token>, m: Machine, k: nat)
    requires k < |ts| && Fits(ts, m)
    ensures m.pending.Some? ==>
      Pending(TrimSpace(ts[m.pending.value].value), ts[m.pending.value].line, ts[k].line) == Emit(ts, m.pending.value, k)
  {
    if m.pending.Some? {
      TrimTwice(ts[m.pending.value].value);
    }
  }

  /** The value lines among the first m tokens that a whole scan emits. */
  ghost function Emitted(ts: seq<Token>, m: nat): set<nat>
    requires m <= |ts|
  {
    set i: nat | i < m && Emits(ts, i, |ts|)
  }

  /** One reference for each emitted line, so none is emitted twice. */
  lemma {:induction false} DeclaredCount(ts: seq<Token>, m: nat)
    requires m <= |ts|
    ensures |Declared(ts, m, |ts|)| == |Emitted(ts, m)|
  {
    hide Emits, ReferenceOf;
    if m == 0 {
      assert Emitted(ts, m) == {};
    } else {
      DeclaredCount(ts, m - 1);
      var before := Emitted(ts, m - 1);
      if Emits(ts, m - 1, |ts|) {
        assert Emitted(ts, m) == before + {m - 1};
      } else {
        assert Emitted(ts, m) == before;
      }
    }
  }
}

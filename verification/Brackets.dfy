/** The bracket checker against the grammar of balanced words, and the weaker check of the REPL. */
module Brackets {
  import opened Wrappers

  datatype Bracket = Bracket(ch: char, line: nat, col: nat)

  datatype Report =
    | Balanced
    | UnexpectedClose(close: Bracket, hint: Option<Bracket>)
    | Unclosed(opens: seq<Bracket>)

  predicate IsOpen(c: char) { c == '(' || c == '[' }

  predicate IsClose(c: char) { c == ')' || c == ']' }

  predicate Pair(o: char, c: char) {
    (o == '(' && c == ')') || (o == '[' && c == ']')
  }

  // ----- the grammar -----

  /** Empty, or a balanced word in a pair of brackets and then a balanced word. */
  ghost predicate Dyck(w: seq<Bracket>)
    decreases |w|, 1
  {
    w == [] || exists k :: Splits(w, k)
  }

  ghost predicate Splits(w: seq<Bracket>, k: int)
    decreases |w|, 0
  {
    && 0 < k < |w|
    && ((w[0].ch == '(' && w[k].ch == ')') || (w[0].ch == '[' && w[k].ch == ']'))
    && Dyck(w[1..k]) && Dyck(w[k + 1..])
  }

  /** `opens` are the brackets of `w` left open, with balanced words around them. */
  ghost predicate LeftOpen(w: seq<Bracket>, opens: seq<Bracket>)
    decreases |opens|
  {
    if opens == [] then Dyck(w)
    else exists k :: OpensAt(w, opens, k)
  }

  ghost predicate OpensAt(w: seq<Bracket>, opens: seq<Bracket>, k: int)
    requires opens != []
    decreases |opens|, 0
  {
    var n := |opens| - 1;
    0 <= k < |w| && IsOpen(w[k].ch) && w[k] == opens[n] && LeftOpen(w[..k], opens[..n]) && Dyck(w[k + 1..])
  }

  lemma Split(w: seq<Bracket>) returns (k: nat)
    requires Dyck(w) && w != []
    ensures 0 < k < |w| && Pair(w[0].ch, w[k].ch) && Dyck(w[1..k]) && Dyck(w[k + 1..])
    ensures w == [w[0]] + w[1..k] + [w[k]] + w[k + 1..]
  {
    k :| Splits(w, k);
  }

  lemma Join(o: Bracket, d: seq<Bracket>, c: Bracket, rest: seq<Bracket>)
    requires Pair(o.ch, c.ch) && Dyck(d) && Dyck(rest)
    ensures Dyck([o] + d + [c] + rest)
  {
    var w := [o] + d + [c] + rest;
    var k := |d| + 1;
    assert w[1..k] == d && w[k + 1..] == rest && w[0] == o && w[k] == c;
    hide Dyck;
    assert Splits(w, k);
    IsDyck(w, k);
  }

  lemma IsDyck(w: seq<Bracket>, k: int)
    requires Splits(w, k)
    ensures Dyck(w)
  {
  }

  lemma {:induction false} DyckConcat(u: seq<Bracket>, v: seq<Bracket>)
    requires Dyck(u) && Dyck(v)
    ensures Dyck(u + v)
    decreases |u|
  {
    if u == [] {
      assert u + v == v;
    } else {
      var k := Split(u);
      DyckConcat(u[k + 1..], v);
      hide *;
      Join(u[0], u[1..k], u[k], u[k + 1..] + v);
      assert u + v == [u[0]] + u[1..k] + [u[k]] + (u[k + 1..] + v);
    }
  }

  lemma DyckPair(o: Bracket, d: seq<Bracket>, c: Bracket)
    requires Dyck(d) && Pair(o.ch, c.ch)
    ensures Dyck([o] + d + [c])
  {
    Join(o, d, c, []);
    assert [o] + d + [c] + [] == [o] + d + [c];
  }

  // ----- the stack machine -----

  datatype Machine = Stack(opens: seq<Bracket>) | Stray(close: Bracket, hint: Option<Bracket>)

  /** One bracket: a close must match the innermost open. */
  function Read(m: Machine, b: Bracket): Machine {
    if m.Stray? then m
    else if IsOpen(b.ch) then Stack(m.opens + [b])
    else if m.opens == [] then Stray(b, None)
    else
      var top := m.opens[|m.opens| - 1];
      if Pair(top.ch, b.ch) then Stack(m.opens[..|m.opens| - 1]) else Stray(b, Some(top))
  }

  function ReadAll(m: Machine, w: seq<Bracket>): Machine
    decreases |w|
  {
    if w == [] then m else ReadAll(Read(m, w[0]), w[1..])
  }

  lemma {:induction false} ReadConcat(m: Machine, u: seq<Bracket>, v: seq<Bracket>)
    ensures ReadAll(m, u + v) == ReadAll(ReadAll(m, u), v)
    decreases |u|
  {
    if u == [] {
      assert u + v == v;
    } else {
      assert (u + v)[1..] == u[1..] + v;
      ReadConcat(Read(m, u[0]), u[1..], v);
    }
  }

  lemma ReadLast(m: Machine, w: seq<Bracket>, b: Bracket)
    ensures ReadAll(m, w + [b]) == Read(ReadAll(m, w), b)
  {
    ReadConcat(m, w, [b]);
    assert [b][1..] == [];
  }

  lemma PairReads(opens: seq<Bracket>, o: Bracket, d: seq<Bracket>, c: Bracket, rest: seq<Bracket>)
    requires Pair(o.ch, c.ch) && ReadAll(Stack(opens + [o]), d) == Stack(opens + [o])
    requires ReadAll(Stack(opens), rest) == Stack(opens)
    ensures ReadAll(Stack(opens), [o] + d + [c] + rest) == Stack(opens)
  {
    var inner := opens + [o];
    assert inner[..|inner| - 1] == opens;
    assert Read(Stack(opens), o) == Stack(inner) && Read(Stack(inner), c) == Stack(opens);
    ReadConcat(Stack(opens), [o] + d + [c], rest);
    ReadLast(Stack(opens), [o] + d, c);
    ReadConcat(Stack(opens), [o], d);
    ReadLast(Stack(opens), [], o);
    assert [] + [o] == [o];
  }

  /** A balanced word leaves the stack as it was. */
  lemma {:induction false} DyckReads(opens: seq<Bracket>, w: seq<Bracket>)
    requires Dyck(w)
    ensures ReadAll(Stack(opens), w) == Stack(opens)
    decreases |w|
  {
    if w != [] {
      var k := Split(w);
      DyckReads(opens + [w[0]], w[1..k]);
      DyckReads(opens, w[k + 1..]);
      PairReads(opens, w[0], w[1..k], w[k], w[k + 1..]);
    }
  }

  lemma {:induction false} OpenReads(w: seq<Bracket>, opens: seq<Bracket>)
    requires LeftOpen(w, opens)
    ensures ReadAll(Stack([]), w) == Stack(opens)
    decreases |opens|
  {
    if opens == [] {
      DyckReads([], w);
    } else {
      var n := |opens| - 1;
      var k :| OpensAt(w, opens, k);
      OpenReads(w[..k], opens[..n]);
      ReadLast(Stack([]), w[..k], w[k]);
      assert opens[..n] + [opens[n]] == opens;
      ReadConcat(Stack([]), w[..k] + [w[k]], w[k + 1..]);
      assert w == w[..k] + [w[k]] + w[k + 1..];
      DyckReads(opens, w[k + 1..]);
    }
  }

  lemma PushKeeps(w: seq<Bracket>, opens: seq<Bracket>, b: Bracket)
    requires LeftOpen(w, opens) && IsOpen(b.ch)
    ensures LeftOpen(w + [b], opens + [b])
  {
    var w', opens' := w + [b], opens + [b];
    assert w'[..|w|] == w && w'[|w| + 1..] == [] && opens'[..|opens|] == opens;
    assert OpensAt(w', opens', |w|);
  }

  lemma PopKeeps(w: seq<Bracket>, opens: seq<Bracket>, b: Bracket)
    requires opens != [] && LeftOpen(w, opens) && Pair(opens[|opens| - 1].ch, b.ch)
    ensures LeftOpen(w + [b], opens[..|opens| - 1])
  {
    var n := |opens| - 1;
    var k :| OpensAt(w, opens, k);
    var d := [w[k]] + w[k + 1..] + [b];
    DyckPair(w[k], w[k + 1..], b);
    assert w + [b] == w[..k] + d;
    AppendBalanced(w[..k], opens[..n], d);
  }

  lemma AppendBalanced(w: seq<Bracket>, opens: seq<Bracket>, d: seq<Bracket>)
    requires LeftOpen(w, opens) && Dyck(d)
    ensures LeftOpen(w + d, opens)
  {
    if opens == [] {
      DyckConcat(w, d);
    } else {
      var k :| OpensAt(w, opens, k);
      DyckConcat(w[k + 1..], d);
      assert (w + d)[..k] == w[..k] && (w + d)[k + 1..] == w[k + 1..] + d;
      assert OpensAt(w + d, opens, k);
    }
  }

  /** The machine's stack is what the word leaves open. */
  lemma {:induction false} ReadsOpen(w: seq<Bracket>)
    requires ReadAll(Stack([]), w).Stack?
    ensures LeftOpen(w, ReadAll(Stack([]), w).opens)
    decreases |w|
  {
    if w != [] {
      var n := |w| - 1;
      var b := w[n];
      assert w == w[..n] + [b];
      ReadLast(Stack([]), w[..n], b);
      ReadsOpen(w[..n]);
      var opens := ReadAll(Stack([]), w[..n]).opens;
      if IsOpen(b.ch) {
        PushKeeps(w[..n], opens, b);
      } else {
        PopKeeps(w[..n], opens, b);
      }
    }
  }

  /** The word is balanced exactly when the machine ends with an empty stack; a stack names exactly the
      brackets left open. */
  lemma StackIffOpen(w: seq<Bracket>, opens: seq<Bracket>)
    ensures ReadAll(Stack([]), w) == Stack(opens) <==> LeftOpen(w, opens)
  {
    if ReadAll(Stack([]), w) == Stack(opens) {
      ReadsOpen(w);
    }
    if LeftOpen(w, opens) {
      OpenReads(w, opens);
    }
  }

  /** Some balanced word begins with `w`. */
  ghost predicate Extensible(w: seq<Bracket>) {
    exists v :: Dyck(w + v)
  }

  lemma {:induction false} StrayStays(m: Machine, w: seq<Bracket>)
    requires m.Stray?
    ensures ReadAll(m, w) == m
  {
    if w != [] {
      StrayStays(m, w[1..]);
    }
  }

  function Closer(o: Bracket): Bracket {
    o.(ch := if o.ch == '(' then ')' else ']')
  }

  lemma {:induction false} OpenExtends(w: seq<Bracket>, opens: seq<Bracket>)
    requires LeftOpen(w, opens)
    ensures Extensible(w)
    decreases |opens|
  {
    if opens == [] {
      assert w + [] == w;
    } else {
      var n := |opens| - 1;
      var k :| OpensAt(w, opens, k);
      var b := Closer(opens[n]);
      PopKeeps(w, opens, b);
      OpenExtends(w + [b], opens[..n]);
      var v :| Dyck(w + [b] + v);
      assert w + ([b] + v) == w + [b] + v;
    }
  }

  /** The machine gets stuck exactly on the words that no balanced word begins with. */
  lemma StrayIffInextensible(w: seq<Bracket>)
    ensures ReadAll(Stack([]), w).Stray? <==> !Extensible(w)
  {
    var m := ReadAll(Stack([]), w);
    if m.Stack? {
      ReadsOpen(w);
      OpenExtends(w, m.opens);
    } else {
      forall v ensures !Dyck(w + v) {
        if Dyck(w + v) {
          DyckReads([], w + v);
          ReadConcat(Stack([]), w, v);
          StrayStays(m, v);
        }
      }
    }
  }

  // ----- the text around the brackets -----

  datatype Mode = Code | Comment | InString(escape: bool)

  /** Where the reading of a text stands: what surrounds the next character, and its position. */
  datatype Place = Place(mode: Mode, line: nat, col: nat)

  /** Strings and comments hide what is in them; a newline ends a comment, and an escape too. */
  function NextMode(mode: Mode, ch: char): Mode {
    match mode
    case Code => if ch == '"' then InString(false) else if ch == ';' then Comment else Code
    case Comment => if ch == '\n' then Code else Comment
    case InString(escape) =>
      if ch == '\n' || escape then InString(false)
      else if ch == '\\' then InString(true)
      else if ch == '"' then Code
      else InString(false)
  }

  function ModeAfter(text: string): Mode {
    if text == [] then Code else NextMode(ModeAfter(text[..|text| - 1]), text[|text| - 1])
  }

  /** A text's last line. */
  function LastLine(text: string): string {
    if text == [] || text[|text| - 1] == '\n' then [] else LastLine(text[..|text| - 1]) + [text[|text| - 1]]
  }

  function Newlines(text: string): nat {
    if text == [] then 0 else Newlines(text[..|text| - 1]) + if text[|text| - 1] == '\n' then 1 else 0
  }

  /** The last line is the end of the text, holds no newline, and starts the text or follows one. */
  lemma {:induction false} LastLineMeaning(text: string)
    ensures var n := |text| - |LastLine(text)|;
            n >= 0 && text[n..] == LastLine(text) && '\n' !in LastLine(text) && (n > 0 ==> text[n - 1] == '\n')
  {
    if text != [] && text[|text| - 1] != '\n' {
      LastLineMeaning(text[..|text| - 1]);
    }
  }

  predicate Shown(before: string, ch: char) {
    ModeAfter(before) == Code && (IsOpen(ch) || IsClose(ch))
  }

  /** The brackets outside strings and comments, each with its line and column. */
  function BracketsOf(text: string): seq<Bracket> {
    if text == [] then []
    else
      var before, ch := text[..|text| - 1], text[|text| - 1];
      BracketsOf(before) + if Shown(before, ch) then [Bracket(ch, Newlines(before) + 1, |LastLine(before)| + 1)] else []
  }

  lemma {:induction false} BracketsGrow(text: string, i: nat)
    requires i <= |text|
    ensures BracketsOf(text[..i]) <= BracketsOf(text)
    decreases |text| - i
  {
    if i == |text| {
      assert text[..i] == text;
    } else {
      BracketsGrow(text, i + 1);
      assert text[..i + 1][..i] == text[..i];
    }
  }

  lemma BracketsNext(before: string, ch: char)
    ensures ModeAfter(before + [ch]) == NextMode(ModeAfter(before), ch)
    ensures Newlines(before + [ch]) == Newlines(before) + if ch == '\n' then 1 else 0
    ensures LastLine(before + [ch]) == if ch == '\n' then [] else LastLine(before) + [ch]
    ensures BracketsOf(before + [ch]) ==
              if Shown(before, ch) then BracketsOf(before) + [Bracket(ch, Newlines(before) + 1, |LastLine(before)| + 1)]
              else BracketsOf(before)
  {
    assert (before + [ch])[..|before|] == before;
  }

  /** The report for a word of brackets. */
  function ReportOf(m: Machine): Report {
    match m
    case Stack(opens) => if opens == [] then Balanced else Unclosed(opens)
    case Stray(close, hint) => UnexpectedClose(close, hint)
  }

  lemma PrefixSplit(v: seq<Bracket>, w: seq<Bracket>)
    requires v <= w
    ensures w == v + w[|v|..]
  {
  }

  /** Once stray, whatever the rest of the text. */
  lemma StrayEnds(source: string, i: nat)
    requires i <= |source| && ReadAll(Stack([]), BracketsOf(source[..i])).Stray?
    ensures ReadAll(Stack([]), BracketsOf(source)) == ReadAll(Stack([]), BracketsOf(source[..i]))
  {
    BracketsGrow(source, i);
    hide BracketsOf, ReadAll;
    var w, v := BracketsOf(source), BracketsOf(source[..i]);
    var rest := w[|v|..];
    PrefixSplit(v, w);
    ReadConcat(Stack([]), v, rest);
    StrayStays(ReadAll(Stack([]), v), rest);
  }

  /** What one more character does. */
  lemma CharRead(source: string, i: nat)
    requires i < |source|
    ensures var before, ch := source[..i], source[i];
            && ModeAfter(source[..i + 1]) == NextMode(ModeAfter(before), ch)
            && Newlines(source[..i + 1]) == Newlines(before) + (if ch == '\n' then 1 else 0)
            && LastLine(source[..i + 1]) == (if ch == '\n' then [] else LastLine(before) + [ch])
            && ReadAll(Stack([]), BracketsOf(source[..i + 1])) ==
                 if Shown(before, ch) then
                   Read(ReadAll(Stack([]), BracketsOf(before)), Bracket(ch, Newlines(before) + 1, |LastLine(before)| + 1))
                 else ReadAll(Stack([]), BracketsOf(before))
  {
    var before, ch := source[..i], source[i];
    assert source[..i + 1] == before + [ch];
    BracketsNext(before, ch);
    ReadLast(Stack([]), BracketsOf(before), Bracket(ch, Newlines(before) + 1, |LastLine(before)| + 1));
  }

  lemma NothingRead(source: string)
    ensures ModeAfter(source[..0]) == Code && Newlines(source[..0]) == 0 && LastLine(source[..0]) == []
    ensures ReadAll(Stack([]), BracketsOf(source[..0])) == Stack([])
  {
    assert source[..0] == [];
  }

  method CheckParenBalance(source: string) returns (report: Report)
    ensures report == ReportOf(ReadAll(Stack([]), BracketsOf(source)))
  {
    var stack: seq<Bracket> := [];
    var inString, inLineComment, escapeNext := false, false, false;
    var line, col := 1, 1;
    var i := 0;
    NothingRead(source);
    hide BracketsOf, ReadAll, ModeAfter, Newlines, LastLine;
    while i < |source|
      invariant i <= |source|
      invariant ModeAfter(source[..i]) == if inLineComment then Comment else if inString then InString(escapeNext) else Code
      invariant (inLineComment ==> !inString) && (escapeNext ==> inString)
      invariant line == Newlines(source[..i]) + 1 && col == |LastLine(source[..i])| + 1
      invariant ReadAll(Stack([]), BracketsOf(source[..i])) == Stack(stack)
    {
      var ch := source[i];
      CharRead(source, i);
      i := i + 1;
      if ch == '\n' {
        inLineComment, escapeNext := false, false;
        line, col := line + 1, 1;
        continue;
      }
      if inLineComment {
        col := col + 1;
        continue;
      }
      if inString {
        if escapeNext {
          escapeNext := false;
        } else if ch == '\\' {
          escapeNext := true;
        } else if ch == '"' {
          inString := false;
        }
        col := col + 1;
        continue;
      }
      if ch == '"' {
        inString := true;
      } else if ch == ';' {
        inLineComment := true;
      } else if IsOpen(ch) {
        stack := stack + [Bracket(ch, line, col)];
      } else if IsClose(ch) {
        var expected := if ch == ')' then '(' else '[';
        if stack == [] || stack[|stack| - 1].ch != expected {
          report := UnexpectedClose(Bracket(ch, line, col), if stack == [] then None else Some(stack[|stack| - 1]));
          StrayEnds(source, i);
          return;
        }
        stack := stack[..|stack| - 1];
      }
      col := col + 1;
    }
    assert source[..i] == source;
    report := if stack == [] then Balanced else Unclosed(stack);
  }

  /** The innermost of the open brackets, if any. */
  function Innermost(opens: seq<Bracket>): Option<Bracket> {
    if opens == [] then None else Some(opens[|opens| - 1])
  }

  /** The first close that no balanced word survives, with the innermost bracket open before it. */
  ghost predicate FirstStray(w: seq<Bracket>, i: nat, close: Bracket, hint: Option<Bracket>) {
    && i < |w| && w[i] == close && Extensible(w[..i]) && !Extensible(w[..i + 1])
    && exists opens :: LeftOpen(w[..i], opens) && hint == Innermost(opens)
  }

  lemma {:induction false} StrayIsFirst(w: seq<Bracket>) returns (i: nat)
    requires ReadAll(Stack([]), w).Stray?
    ensures var m := ReadAll(Stack([]), w); FirstStray(w, i, m.close, m.hint)
    decreases |w|
  {
    var n := |w| - 1;
    assert w == w[..n] + [w[n]];
    ReadLast(Stack([]), w[..n], w[n]);
    var m := ReadAll(Stack([]), w[..n]);
    if m.Stray? {
      i := StrayIsFirst(w[..n]);
      assert w[..n][..i] == w[..i] && w[..n][..i + 1] == w[..i + 1];
    } else {
      i := n;
      StackIffOpen(w[..n], m.opens);
      StrayIffInextensible(w[..n]);
      StrayIffInextensible(w);
      assert w[..n + 1] == w;
    }
  }

  /** The checker answers `Balanced` exactly on balanced words, `Unclosed` with exactly the brackets left
      open, and otherwise points at the first bracket that no balanced word survives. */
  lemma CheckerIsExact(source: string)
    ensures var w, report := BracketsOf(source), ReportOf(ReadAll(Stack([]), BracketsOf(source)));
            && (report == Balanced <==> Dyck(w))
            && (forall opens :: opens != [] ==> (report == Unclosed(opens) <==> LeftOpen(w, opens)))
            && (report.UnexpectedClose? <==> !Extensible(w))
            && (report.UnexpectedClose? ==> exists i :: FirstStray(w, i, report.close, report.hint))
  {
    var w := BracketsOf(source);
    StackIffOpen(w, []);
    forall opens | opens != []
      ensures ReadAll(Stack([]), w) == Stack(opens) <==> LeftOpen(w, opens)
    {
      StackIffOpen(w, opens);
    }
    StrayIffInextensible(w);
    if ReadAll(Stack([]), w).Stray? {
      var i := StrayIsFirst(w);
    }
  }

  // ----- the check of the REPL -----

  function Depth(w: seq<Bracket>): int {
    if w == [] then 0 else Depth(w[..|w| - 1]) + if IsOpen(w[|w| - 1].ch) then 1 else -1
  }

  /** Strings only: the REPL knows no comments. */
  function ReplMode(text: string): Mode {
    if text == [] then Code
    else
      var mode, ch := ReplMode(text[..|text| - 1]), text[|text| - 1];
      if mode == Code then (if ch == '"' then InString(false) else Code)
      else if mode == InString(true) then InString(false)
      else if ch == '\\' then InString(true)
      else if ch == '"' then Code
      else InString(false)
  }

  function ReplDepth(text: string): int {
    if text == [] then 0
    else
      var before, ch := text[..|text| - 1], text[|text| - 1];
      ReplDepth(before) + if ReplMode(before) != Code then 0 else if IsOpen(ch) then 1 else if IsClose(ch) then -1 else 0
  }

  method ParensBalanced(input: string) returns (ok: bool)
    ensures ok <==> ReplDepth(input) <= 0
  {
    var depth, inString, escape := 0, false, false;
    var i := 0;
    while i < |input|
      invariant i <= |input| && depth == ReplDepth(input[..i]) && (escape ==> inString)
      invariant ReplMode(input[..i]) == if inString then InString(escape) else Code
    {
      var ch := input[i];
      assert input[..i + 1][..i] == input[..i];
      i := i + 1;
      if inString {
        if escape {
          escape := false;
          continue;
        }
        if ch == '\\' {
          escape := true;
          continue;
        }
        if ch == '"' {
          inString := false;
        }
        continue;
      }
      if ch == '"' {
        inString := true;
      } else if ch == '(' || ch == '[' {
        depth := depth + 1;
      } else if ch == ')' || ch == ']' {
        depth := depth - 1;
      }
    }
    assert input[..i] == input;
    ok := depth <= 0;
  }

  function Weight(ch: char): int {
    if IsOpen(ch) then 1 else if IsClose(ch) then -1 else 0
  }

  /** How many more brackets open than close inside comments. */
  function CommentDepth(text: string): int {
    if text == [] then 0
    else
      var before, ch := text[..|text| - 1], text[|text| - 1];
      CommentDepth(before) + if ModeAfter(before) == Comment then Weight(ch) else 0
  }

  /** No comment contains a quote. */
  predicate QuotesOutside(text: string) {
    forall i :: 0 <= i < |text| && ModeAfter(text[..i]) == Comment ==> text[i] != '"'
  }

  lemma QuotesBefore(text: string)
    requires QuotesOutside(text) && text != []
    ensures QuotesOutside(text[..|text| - 1])
    ensures ModeAfter(text[..|text| - 1]) == Comment ==> text[|text| - 1] != '"'
  {
    hide ModeAfter;
    var before := text[..|text| - 1];
    forall i | 0 <= i < |before| && ModeAfter(before[..i]) == Comment
      ensures before[i] != '"'
    {
      assert before[..i] == text[..i];
    }
  }

  /** Then the REPL takes comments for code and is right about strings. */
  lemma {:induction false} SameMode(text: string)
    requires QuotesOutside(text)
    ensures ReplMode(text) == if ModeAfter(text) == Comment then Code else ModeAfter(text)
  {
    if text != [] {
      QuotesBefore(text);
      hide QuotesOutside;
      SameMode(text[..|text| - 1]);
    }
  }

  lemma DepthNext(before: string, ch: char)
    ensures Depth(BracketsOf(before + [ch])) == Depth(BracketsOf(before)) + if ModeAfter(before) == Code then Weight(ch) else 0
  {
    BracketsNext(before, ch);
    hide ModeAfter, Newlines, LastLine;
    var b := Bracket(ch, Newlines(before) + 1, |LastLine(before)| + 1);
    assert (BracketsOf(before) + [b])[..|BracketsOf(before)|] == BracketsOf(before);
  }

  lemma {:induction false} SameDepth(text: string)
    requires QuotesOutside(text)
    ensures ReplDepth(text) == Depth(BracketsOf(text)) + CommentDepth(text)
  {
    if text != [] {
      var before, ch := text[..|text| - 1], text[|text| - 1];
      QuotesBefore(text);
      SameDepth(before);
      SameMode(before);
      assert text == before + [ch];
      DepthNext(before, ch);
      hide ModeAfter, ReplMode, QuotesOutside, BracketsOf, Depth;
    }
  }

  lemma {:induction false} DepthConcat(u: seq<Bracket>, v: seq<Bracket>)
    ensures Depth(u + v) == Depth(u) + Depth(v)
    decreases |v|
  {
    if v == [] {
      assert u + v == u;
    } else {
      assert (u + v)[..|u + v| - 1] == u + v[..|v| - 1];
      DepthConcat(u, v[..|v| - 1]);
    }
  }

  lemma {:induction false} DyckDepth(w: seq<Bracket>)
    requires Dyck(w)
    ensures Depth(w) == 0
    decreases |w|
  {
    if w != [] {
      var k := Split(w);
      DyckDepth(w[1..k]);
      DyckDepth(w[k + 1..]);
      var o, c := w[0], w[k];
      hide Dyck;
      DepthConcat([o] + w[1..k] + [c], w[k + 1..]);
      DepthConcat([o] + w[1..k], [c]);
      DepthConcat([o], w[1..k]);
      assert [o][..0] == [] && [c][..0] == [];
    }
  }

  /** What the checker calls balanced the REPL accepts exactly if no more brackets open than close inside
      its comments, provided that these contain no quotes. */
  lemma BalancedIsAccepted(text: string)
    requires QuotesOutside(text) && Dyck(BracketsOf(text))
    ensures ReplDepth(text) <= 0 <==> CommentDepth(text) <= 0
  {
    SameDepth(text);
    DyckDepth(BracketsOf(text));
  }

  /** Without comments, that is always so. A semicolon inside a string begins none. */
  lemma {:induction false} NoComments(text: string)
    requires forall i :: 0 <= i < |text| ==> ModeAfter(text[..i]) != Comment
    ensures QuotesOutside(text) && CommentDepth(text) == 0
  {
    if text != [] {
      var before := text[..|text| - 1];
      forall i | 0 <= i < |before|
        ensures ModeAfter(before[..i]) != Comment
      {
        assert before[..i] == text[..i];
      }
      NoComments(before);
      assert text[..|before|] == before;
    }
    hide ModeAfter;
  }

  /** A quote inside a comment opens a string for the REPL and hides whatever code follows: it counts
      nothing, however many brackets the code leaves open. */
  lemma {:induction false} QuoteHides(code: string)
    requires '"' !in code
    ensures var text := ";\"\n" + code;
            && ReplDepth(text) == 0
            && ModeAfter(text) == ModeAfter(code) && Depth(BracketsOf(text)) == Depth(BracketsOf(code))
            && ReplMode(text).InString?
  {
    var start := ";\"\n";
    if code == [] {
      assert start + code == start;
      QuoteStarts();
    } else {
      var before, ch := code[..|code| - 1], code[|code| - 1];
      QuoteHides(before);
      assert (start + code)[..|start + code| - 1] == start + before;
      assert start + code == (start + before) + [ch] && code == before + [ch];
      DepthNext(before, ch);
      DepthNext(start + before, ch);
      hide BracketsOf, Depth;
    }
  }

  lemma QuoteStarts()
    ensures var text := ";\"\n";
            ReplDepth(text) == 0 && ModeAfter(text) == Code && Depth(BracketsOf(text)) == 0 && ReplMode(text) == InString(false)
  {
    assert ";\"\n"[..2] == ";\"" && ";\""[..1] == ";" && ";"[..0] == "";
    assert ModeAfter(";") == Comment && ReplMode(";") == Code && ReplDepth(";") == 0 && BracketsOf(";") == [];
    assert ModeAfter(";\"") == Comment && ReplMode(";\"") == InString(false) && ReplDepth(";\"") == 0 && BracketsOf(";\"") == [];
  }

  /** The REPL accepts a text that is not balanced, and with a comment it waits for a balanced one. */
  lemma ReplIsWeaker()
    ensures ReplDepth(")") <= 0 && !Dyck(BracketsOf(")"))
    ensures ReplDepth(";(") > 0 && Dyck(BracketsOf(";("))
  {
    assert ")"[..0] == "" && ";("[..1] == ";" && ";"[..0] == "";
    assert ReplMode(";") == Code && ModeAfter(";") == Comment;
    var b := Bracket(')', 1, 1);
    assert BracketsOf(")") == [b];
    assert forall k :: !Splits([b], k);
  }
}

/** The workbench's one-pass tokenizer (`splitQueryByArgs`): it cuts a command line into
    the arguments before the cursor and those from the cursor on, keeps quotes in the
    argument text, honours backslash escapes, joins known two-word arguments, and
    reports what surrounds the cursor. */
module QueryTokenizer {
  import opened JsBasics

  /** `isCompositeArgument`: the previous argument and this one, upper-cased and joined
      by one space, form a known two-word argument. */
  predicate IsCompositeArgument(arg: string, prevArg: string, composites: seq<string>)
  {
    Upper(prevArg) + " " + Upper(arg) in composites
  }

  /** Upper-casing twice is upper-casing once. */
  lemma UpperIsIdempotent(s: string)
    ensures Upper(Upper(s)) == Upper(s)
  {
    assert forall i | 0 <= i < |s| :: UpperChar(UpperChar(s[i])) == UpperChar(s[i]);
  }

  /** Whether two words form a composite argument does not depend on how they are cased. */
  lemma CompositeIgnoresCase(arg: string, prevArg: string, composites: seq<string>)
    ensures IsCompositeArgument(Upper(arg), Upper(prevArg), composites) == IsCompositeArgument(arg, prevArg, composites)
  {
    UpperIsIdempotent(arg);
    UpperIsIdempotent(prevArg);
  }

  /** The arguments emitted so far, on each side of the cursor, and the last one pushed. */
  datatype Output = Output(before: seq<string>, after: seq<string>, lastArg: string)

  /** `argLeftOffset` and `argRightOffset`. */
  datatype Offsets = Offsets(left: int, right: int)

  /** The scanner's variables after some prefix of the query. `quoteChar` is `None` for
      the empty string the scanner starts with. */
  datatype ScanState = ScanState(
    out: Output,
    arg: string,
    inQuotes: bool,
    escapeNextChar: bool,
    quoteChar: Option<char>,
    isCursorInQuotes: bool,
    offsets: Offsets)

  const Initial := ScanState(Output([], [], ""), "", false, false, None, false, Offsets(0, 0))

  /** What the cursor sits in, as reported next to the two argument lists. */
  datatype Cursor = Cursor(
    isCursorInQuotes: bool,
    prevCursorChar: string,
    nextCursorChar: string,
    argLeftOffset: int,
    argRightOffset: int)

  datatype SplitResult = SplitResult(before: seq<string>, after: seq<string>, cursor: Cursor)

  /** `pushToProperTuple`. */
  function Push(out: Output, isAfterOffset: bool, text: string): Output
  {
    if isAfterOffset then out.(lastArg := text, after := out.after + [text])
    else out.(lastArg := text, before := out.before + [text])
  }

  /** `side[side.length - 1] = side[side.length - 1] + ' ' + text`. On an empty list the
      assignment lands on the property "-1", which no reader of the list sees. */
  function AppendToLast(side: seq<string>, text: string): seq<string>
  {
    if side == [] then side else side[..|side| - 1] + [side[|side| - 1] + " " + text]
  }

  /** `updateLastArgument`: does not touch `lastArg`. */
  function UpdateLastArgument(out: Output, isAfterOffset: bool, text: string): Output
  {
    if isAfterOffset then out.(after := AppendToLast(out.after, text))
    else out.(before := AppendToLast(out.before, text))
  }

  /** A finished argument is merged into the previous one when the pair is composite and
      pushed as a new argument otherwise. */
  function Emit(out: Output, isAfterOffset: bool, text: string, composites: seq<string>): Output
  {
    if IsCompositeArgument(text, out.lastArg, composites) then UpdateLastArgument(out, isAfterOffset, text)
    else Push(out, isAfterOffset, text)
  }

  /** `if (isAfterOffset && !argLeftOffset) updateArgOffsets(left, right)`. */
  function MarkOffsets(offsets: Offsets, isAfterOffset: bool, left: int, right: int): Offsets
  {
    if isAfterOffset && offsets.left == 0 then Offsets(left, right) else offsets
  }

  /** A finished argument leaves the accumulator: the offsets may be recorded, the text
      is emitted and the accumulator is emptied. */
  function Flush(st: ScanState, isAfterOffset: bool, text: string, left: int, right: int,
                 composites: seq<string>): ScanState
  {
    st.(out := Emit(st.out, isAfterOffset, text, composites),
        offsets := MarkOffsets(st.offsets, isAfterOffset, left, right),
        arg := "")
  }

  /** The branch of the scanning loop taken for the character `c` at index `i`. */
  function Consume(st: ScanState, i: int, c: char, isAfterOffset: bool, composites: seq<string>): ScanState
  {
    if st.escapeNextChar then
      st.(arg := st.arg + [c], escapeNextChar := st.quoteChar.None?)
    else if c == '\\' then
      st.(escapeNextChar := true)
    else if st.inQuotes then
      if st.quoteChar == Some(c) then
        Flush(st.(inQuotes := false), isAfterOffset, st.arg + [c], i - |st.arg|, i + 1, composites)
      else
        st.(arg := st.arg + [c])
    else if c == '"' || c == '\'' then
      st.(inQuotes := true, quoteChar := Some(c), arg := st.arg + [c])
    else if c == ' ' || c == '\n' then
      if |st.arg| > 0 then Flush(st, isAfterOffset, st.arg, i - |st.arg|, i, composites)
      else st
    else
      st.(arg := st.arg + [c])
  }

  /** `isAfterOffset`: inside quotes the cursor is taken to be one character further left. */
  function IsAfterOffset(st: ScanState, i: int, position: int): bool
  {
    i >= position + (if st.inQuotes then -1 else 0)
  }

  /** One turn of the scanning loop: the character's branch, then the cursor check. */
  function Step(st: ScanState, i: int, c: char, position: int, composites: seq<string>): ScanState
  {
    var next := Consume(st, i, c, IsAfterOffset(st, i, position), composites);
    if i == position - 1 then next.(isCursorInQuotes := next.inQuotes) else next
  }

  /** The scanner's variables after the first `k` characters of `query`. */
  function ScanPrefix(query: string, k: nat, position: int, composites: seq<string>): ScanState
    requires k <= |query|
  {
    if k == 0 then Initial
    else Step(ScanPrefix(query, k - 1, position, composites), k - 1, query[k - 1], position, composites)
  }

  /** `query[k]?.trim() || ''`. */
  function TrimmedCharAt(query: string, k: int): (r: string)
    ensures |r| <= 1
    ensures r == "" <==> !(0 <= k < |query|) || IsWhitespace(query[k])
    ensures r != "" ==> r == [query[k]]
  {
    if 0 <= k < |query| && !IsWhitespace(query[k]) then [query[k]] else ""
  }

  /** What follows the loop: a non-empty leftover argument always goes to the list after
      the cursor, and the cursor report is assembled. */
  function Finish(st: ScanState, query: string, position: int): (r: SplitResult)
    ensures st.arg != "" ==> r.before == st.out.before && r.after == st.out.after + [st.arg]
    ensures st.arg == "" ==> r.before == st.out.before && r.after == st.out.after
    ensures r.cursor.isCursorInQuotes == st.isCursorInQuotes
    ensures r.cursor.prevCursorChar == TrimmedCharAt(query, position - 1)
    ensures r.cursor.nextCursorChar == TrimmedCharAt(query, position)
    ensures st.offsets.left != 0 ==>
      r.cursor.argLeftOffset == st.offsets.left && r.cursor.argRightOffset == st.offsets.right
    ensures st.offsets.left == 0 && st.arg != "" ==>
      r.cursor.argLeftOffset == |query| - |st.arg| && r.cursor.argRightOffset == |query|
    ensures st.offsets.left == 0 && st.arg == "" ==>
      r.cursor.argLeftOffset == 0 && r.cursor.argRightOffset == st.offsets.right
  {
    var last :=
      if |st.arg| > 0 then
        st.(out := Push(st.out, true, st.arg),
            offsets := if st.offsets.left == 0 then Offsets(|query| - |st.arg|, |query|) else st.offsets)
      else st;
    SplitResult(last.out.before, last.out.after,
      Cursor(last.isCursorInQuotes, TrimmedCharAt(query, position - 1), TrimmedCharAt(query, position),
             last.offsets.left, last.offsets.right))
  }

  /** The value `splitQueryByArgs(query, position)` returns. */
  function SplitQuery(query: string, position: int, composites: seq<string>): SplitResult
  {
    Finish(ScanPrefix(query, |query|, position, composites), query, position)
  }

  /** `splitQueryByArgs`, with the scanner's variables updated in place. */
  method SplitQueryByArgs(query: string, position: int, composites: seq<string>) returns (r: SplitResult)
    ensures r == SplitQuery(query, position, composites)
  {
    var before: seq<string>, after: seq<string> := [], [];
    var arg := "";
    var inQuotes, escapeNextChar := false, false;
    var quoteChar: Option<char> := None;
    var isCursorInQuotes := false;
    var lastArg := "";
    var argLeftOffset, argRightOffset := 0, 0;

    for i := 0 to |query|
      invariant ScanState(Output(before, after, lastArg), arg, inQuotes, escapeNextChar, quoteChar,
                          isCursorInQuotes, Offsets(argLeftOffset, argRightOffset))
                == ScanPrefix(query, i, position, composites)
    {
      var c := query[i];
      var isAfterOffset := i >= position + (if inQuotes then -1 else 0);

      if escapeNextChar {
        arg := arg + [c];
        escapeNextChar := quoteChar.None?;
      } else if c == '\\' {
        escapeNextChar := true;
      } else if inQuotes {
        if quoteChar == Some(c) {
          inQuotes := false;
          var argWithChar := arg + [c];
          if isAfterOffset && argLeftOffset == 0 {
            argLeftOffset, argRightOffset := i - |arg|, i + 1;
          }
          if IsCompositeArgument(argWithChar, lastArg, composites) {
            if isAfterOffset { after := AppendToLast(after, argWithChar); }
            else { before := AppendToLast(before, argWithChar); }
          } else {
            lastArg := argWithChar;
            if isAfterOffset { after := after + [argWithChar]; }
            else { before := before + [argWithChar]; }
          }
          arg := "";
        } else {
          arg := arg + [c];
        }
      } else if c == '"' || c == '\'' {
        inQuotes := true;
        quoteChar := Some(c);
        arg := arg + [c];
      } else if c == ' ' || c == '\n' {
        if |arg| > 0 {
          if isAfterOffset && argLeftOffset == 0 {
            argLeftOffset, argRightOffset := i - |arg|, i;
          }
          if IsCompositeArgument(arg, lastArg, composites) {
            if isAfterOffset { after := AppendToLast(after, arg); }
            else { before := AppendToLast(before, arg); }
          } else {
            lastArg := arg;
            if isAfterOffset { after := after + [arg]; }
            else { before := before + [arg]; }
          }
          arg := "";
        }
      } else {
        arg := arg + [c];
      }

      if i == position - 1 {
        isCursorInQuotes := inQuotes;
      }
    }

    if |arg| > 0 {
      if argLeftOffset == 0 {
        argLeftOffset, argRightOffset := |query| - |arg|, |query|;
      }
      lastArg := arg;
      after := after + [arg];
    }

    r := SplitResult(before, after,
      Cursor(isCursorInQuotes, TrimmedCharAt(query, position - 1), TrimmedCharAt(query, position),
             argLeftOffset, argRightOffset));
  }

  // ---------------------------------------------------------------------------
  // Properties of one emission and one scanning step

  /** A composite argument is glued, after one space, onto the last argument of its side
      (nothing changes when that side is still empty); any other argument is appended to
      its side and becomes the last argument. The other side never changes. */
  lemma EmitMergesOrPushes(out: Output, isAfterOffset: bool, text: string, composites: seq<string>)
    ensures var r := Emit(out, isAfterOffset, text, composites);
      var side := if isAfterOffset then out.after else out.before;
      var side' := if isAfterOffset then r.after else r.before;
      && (isAfterOffset ==> r.before == out.before)
      && (!isAfterOffset ==> r.after == out.after)
      && (IsCompositeArgument(text, out.lastArg, composites) ==>
            r.lastArg == out.lastArg && |side'| == |side| &&
            (side != [] ==>
               side'[..|side| - 1] == side[..|side| - 1] &&
               side'[|side| - 1] == side[|side| - 1] + " " + text))
      && (!IsCompositeArgument(text, out.lastArg, composites) ==>
            r.lastArg == text && side' == side + [text])
  {
  }

  /** Outside quotes, a space or newline ends a non-empty argument, which is emitted on
      the side the cursor puts it, and leaves an empty accumulator; with an empty
      accumulator it emits nothing. */
  lemma SeparatorFlushesArgument(st: ScanState, i: int, c: char, position: int, composites: seq<string>)
    requires !st.escapeNextChar && !st.inQuotes && (c == ' ' || c == '\n')
    ensures Step(st, i, c, position, composites).arg == ""
    ensures !Step(st, i, c, position, composites).inQuotes
    ensures st.arg == "" ==> Step(st, i, c, position, composites).out == st.out
    ensures st.arg != "" ==>
      Step(st, i, c, position, composites).out == Emit(st.out, i >= position, st.arg, composites)
  {
  }

  /** What the scanner keeps true: the quote character is one of the two quote marks,
      while in quotes the opening quote is part of the accumulated argument, and no
      emitted argument is empty. */
  ghost predicate ScanInvariant(st: ScanState)
  {
    && (st.quoteChar.Some? ==> st.quoteChar.value == '"' || st.quoteChar.value == '\'')
    && (st.inQuotes ==> st.quoteChar.Some? && st.quoteChar.value in st.arg)
    && NoEmptyArgument(st.out.before)
    && NoEmptyArgument(st.out.after)
  }

  ghost predicate NoEmptyArgument(args: seq<string>)
  {
    forall k | 0 <= k < |args| :: args[k] != ""
  }

  lemma AppendToLastKeepsNonEmpty(side: seq<string>, text: string)
    requires NoEmptyArgument(side)
    ensures NoEmptyArgument(AppendToLast(side, text))
  {
    if side != [] {
      var r := AppendToLast(side, text);
      forall k | 0 <= k < |r| ensures r[k] != "" {
        if k < |side| - 1 {
          assert r[k] == side[k];
        } else {
          assert r[k] == side[|side| - 1] + " " + text;
        }
      }
    }
  }

  lemma EmitKeepsNonEmpty(out: Output, isAfterOffset: bool, text: string, composites: seq<string>)
    requires text != ""
    requires NoEmptyArgument(out.before) && NoEmptyArgument(out.after)
    ensures NoEmptyArgument(Emit(out, isAfterOffset, text, composites).before)
    ensures NoEmptyArgument(Emit(out, isAfterOffset, text, composites).after)
  {
    AppendToLastKeepsNonEmpty(out.before, text);
    AppendToLastKeepsNonEmpty(out.after, text);
    assert (out.before + [text])[|out.before|] == text;
    assert (out.after + [text])[|out.after|] == text;
  }

  lemma GrowingKeepsQuote(arg: string, c: char, q: char)
    requires q in arg
    ensures q in arg + [c]
  {
    var k :| 0 <= k < |arg| && arg[k] == q;
    assert (arg + [c])[k] == q;
  }

  lemma ConsumeKeepsInvariant(st: ScanState, i: int, c: char, isAfterOffset: bool, composites: seq<string>)
    requires ScanInvariant(st)
    ensures ScanInvariant(Consume(st, i, c, isAfterOffset, composites))
  {
    if st.escapeNextChar {
      if st.inQuotes { GrowingKeepsQuote(st.arg, c, st.quoteChar.value); }
    } else if c == '\\' {
    } else if st.inQuotes {
      if st.quoteChar == Some(c) {
        EmitKeepsNonEmpty(st.out, isAfterOffset, st.arg + [c], composites);
      } else {
        GrowingKeepsQuote(st.arg, c, st.quoteChar.value);
      }
    } else if c == '"' || c == '\'' {
      assert (st.arg + [c])[|st.arg|] == c;
    } else if c == ' ' || c == '\n' {
      if |st.arg| > 0 {
        EmitKeepsNonEmpty(st.out, isAfterOffset, st.arg, composites);
      }
    }
  }

  lemma {:induction false} ScanPrefixInvariant(query: string, k: nat, position: int, composites: seq<string>)
    requires k <= |query|
    ensures ScanInvariant(ScanPrefix(query, k, position, composites))
  {
    if k > 0 {
      ScanPrefixInvariant(query, k - 1, position, composites);
      var st := ScanPrefix(query, k - 1, position, composites);
      ConsumeKeepsInvariant(st, k - 1, query[k - 1], IsAfterOffset(st, k - 1, position), composites);
    }
  }

  /** The closing quote ends the quoted argument: the text emitted is the accumulated
      argument plus the closing quote, so it starts after the opening quote and ends with
      the matching one; the scanner leaves quoted mode with an empty accumulator. */
  lemma QuotedArgumentKeepsItsQuotes(query: string, k: nat, position: int, composites: seq<string>)
    requires k < |query|
    requires ScanPrefix(query, k, position, composites).inQuotes
    requires !ScanPrefix(query, k, position, composites).escapeNextChar
    requires ScanPrefix(query, k, position, composites).quoteChar == Some(query[k])
    ensures var st := ScanPrefix(query, k, position, composites);
      var text := st.arg + [query[k]];
      && (query[k] == '"' || query[k] == '\'')
      && |text| >= 2 && text[|text| - 1] == query[k] && query[k] in text[..|text| - 1]
      && ScanPrefix(query, k + 1, position, composites).arg == ""
      && !ScanPrefix(query, k + 1, position, composites).inQuotes
      && ScanPrefix(query, k + 1, position, composites).out == Emit(st.out, k >= position - 1, text, composites)
  {
    ScanPrefixInvariant(query, k, position, composites);
    var st := ScanPrefix(query, k, position, composites);
    var text := st.arg + [query[k]];
    assert text[..|text| - 1] == st.arg;
  }

  // ---------------------------------------------------------------------------
  // Properties of the whole scan

  /** Every argument in either list is non-empty. */
  lemma ArgumentsAreNonEmpty(query: string, position: int, composites: seq<string>)
    ensures forall a | a in SplitQuery(query, position, composites).before :: a != ""
    ensures forall a | a in SplitQuery(query, position, composites).after :: a != ""
  {
    ScanPrefixInvariant(query, |query|, position, composites);
    var st := ScanPrefix(query, |query|, position, composites);
    assert (st.out.after + [st.arg])[|st.out.after|] == st.arg;
  }

  lemma {:induction false} CursorQuoteStateAt(query: string, k: nat, position: int, composites: seq<string>)
    requires k <= |query|
    ensures ScanPrefix(query, k, position, composites).isCursorInQuotes ==
      if 1 <= position <= k then ScanPrefix(query, position, position, composites).inQuotes else false
  {
    if k > 0 {
      CursorQuoteStateAt(query, k - 1, position, composites);
    }
  }

  /** `isCursorInQuotes` is the quote state right after the character before the
      cursor; it is false when the cursor is at the start or past the end. */
  lemma CursorInQuotesIsStateBeforeCursor(query: string, position: int, composites: seq<string>)
    ensures SplitQuery(query, position, composites).cursor.isCursorInQuotes ==
      if 1 <= position <= |query| then ScanPrefix(query, position, position, composites).inQuotes else false
  {
    CursorQuoteStateAt(query, |query|, position, composites);
  }

  /** Once an argument has gone to the list after the cursor, every later step is after
      the cursor too. */
  lemma {:induction false} AfterListStartsAtCursor(query: string, k: nat, position: int, composites: seq<string>)
    requires k <= |query|
    ensures ScanPrefix(query, k, position, composites).out.after != [] ==> k >= position
  {
    if k > 0 {
      AfterListStartsAtCursor(query, k - 1, position, composites);
    }
  }

  /** The list before the cursor is settled as soon as the list after it is started. */
  lemma {:induction false} BeforeListSettles(query: string, k1: nat, k2: nat, position: int, composites: seq<string>)
    requires k1 <= k2 <= |query|
    requires ScanPrefix(query, k1, position, composites).out.after != []
    ensures ScanPrefix(query, k2, position, composites).out.before == ScanPrefix(query, k1, position, composites).out.before
    ensures ScanPrefix(query, k2, position, composites).out.after != []
    decreases k2
  {
    if k2 > k1 {
      BeforeListSettles(query, k1, k2 - 1, position, composites);
      AfterListStartsAtCursor(query, k2 - 1, position, composites);
    }
  }

  /** The offsets reported for the cursor are those of the first argument finished after
      it: once a non-zero left offset is recorded, no later step changes the offsets. */
  lemma {:induction false} OffsetsSettle(query: string, k1: nat, k2: nat, position: int, composites: seq<string>)
    requires k1 <= k2 <= |query|
    requires ScanPrefix(query, k1, position, composites).offsets.left != 0
    ensures ScanPrefix(query, k2, position, composites).offsets == ScanPrefix(query, k1, position, composites).offsets
    decreases k2
  {
    if k2 > k1 {
      OffsetsSettle(query, k1, k2 - 1, position, composites);
    }
  }

  /** Before the cursor no offsets are recorded. */
  lemma {:induction false} NoOffsetsBeforeCursor(query: string, k: nat, position: int, composites: seq<string>)
    requires k <= |query| && k < position
    ensures ScanPrefix(query, k, position, composites).offsets == Offsets(0, 0)
  {
    if k > 0 {
      NoOffsetsBeforeCursor(query, k - 1, position, composites);
    }
  }

  /** Two scans of the same text, one with the cursor at `position` and one with the
      cursor at the start, agree on everything but where the arguments went. */
  ghost predicate SameCut(a: ScanState, b: ScanState)
  {
    && b.out.before == []
    && a.out.before + a.out.after == b.out.after
    && a.arg == b.arg && a.inQuotes == b.inQuotes
    && a.escapeNextChar == b.escapeNextChar && a.quoteChar == b.quoteChar
  }

  lemma PushKeepsSameCut(a: ScanState, b: ScanState, isAfterOffset: bool, text: string)
    requires SameCut(a, b)
    requires !isAfterOffset ==> a.out.after == []
    ensures Push(a.out, isAfterOffset, text).before + Push(a.out, isAfterOffset, text).after
         == Push(b.out, true, text).after
  {
    if isAfterOffset {
      assert (a.out.before + a.out.after) + [text] == a.out.before + (a.out.after + [text]);
    } else {
      assert a.out.before + a.out.after == a.out.before;
    }
  }

  lemma CutConsume(a: ScanState, b: ScanState, i: int, c: char, isAfterOffset: bool)
    requires SameCut(a, b)
    requires !isAfterOffset ==> a.out.after == []
    ensures SameCut(Consume(a, i, c, isAfterOffset, []), Consume(b, i, c, true, []))
  {
    if !a.escapeNextChar && c != '\\' && a.inQuotes && a.quoteChar == Some(c) {
      PushKeepsSameCut(a, b, isAfterOffset, a.arg + [c]);
    } else if !a.escapeNextChar && c != '\\' && !a.inQuotes && (c == ' ' || c == '\n') && |a.arg| > 0 {
      PushKeepsSameCut(a, b, isAfterOffset, a.arg);
    }
  }

  lemma {:induction false} CutAt(query: string, k: nat, position: int)
    requires k <= |query|
    ensures SameCut(ScanPrefix(query, k, position, []), ScanPrefix(query, k, 0, []))
  {
    if k > 0 {
      CutAt(query, k - 1, position);
      AfterListStartsAtCursor(query, k - 1, position, []);
      var a := ScanPrefix(query, k - 1, position, []);
      var b := ScanPrefix(query, k - 1, 0, []);
      CutConsume(a, b, k - 1, query[k - 1], IsAfterOffset(a, k - 1, position));
    }
  }

  /** Without two-word arguments, the cursor only decides where the argument list is
      cut: the two lists together are the arguments of the query read with the cursor
      at its start. */
  lemma CursorOnlyChoosesTheCut(query: string, position: int)
    ensures SplitQuery(query, 0, []).before == []
    ensures SplitQuery(query, position, []).before + SplitQuery(query, position, []).after
         == SplitQuery(query, 0, []).after
  {
    CutAt(query, |query|, position);
    var a := ScanPrefix(query, |query|, position, []);
    assert (a.out.before + a.out.after) + [a.arg] == a.out.before + (a.out.after + [a.arg]);
  }

  lemma {:induction false} EscapeRunsOn(query: string, k: nat, k2: nat, position: int, composites: seq<string>)
    requires k <= k2 <= |query|
    requires ScanPrefix(query, k, position, composites).escapeNextChar
    requires ScanPrefix(query, k, position, composites).quoteChar.None?
    ensures var st := ScanPrefix(query, k, position, composites);
      var st2 := ScanPrefix(query, k2, position, composites);
      st2.escapeNextChar && st2.quoteChar.None? && st2.out == st.out && st2.arg == st.arg + query[k..k2]
    decreases k2
  {
    if k2 > k {
      EscapeRunsOn(query, k, k2 - 1, position, composites);
      assert query[k..k2] == query[k..k2 - 1] + [query[k2 - 1]];
    } else {
      assert query[k..k2] == [];
    }
  }

  /** A backslash read before any quote has opened escapes every character that follows:
      the rest of the query, separators included, becomes part of one last argument
      after the cursor. */
  lemma BackslashBeforeAnyQuoteTakesTheRest(query: string, k: nat, position: int, composites: seq<string>)
    requires k <= |query|
    requires ScanPrefix(query, k, position, composites).escapeNextChar
    requires ScanPrefix(query, k, position, composites).quoteChar.None?
    ensures var st := ScanPrefix(query, k, position, composites);
      var rest := st.arg + query[k..];
      SplitQuery(query, position, composites).before == st.out.before &&
      SplitQuery(query, position, composites).after == st.out.after + (if rest == "" then [] else [rest])
  {
    EscapeRunsOn(query, k, |query|, position, composites);
    assert query[k..] == query[k..|query|];
  }
}

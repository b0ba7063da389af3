/** Splitting a cue's text into chunks and wrapping it into lines, with nothing but white space lost. */
module CueText {
  import opened Wrappers
  import opened Text
  import opened Cues

  // ── What must survive ───────────────────────────────────────────────────────

  /** The characters of a text that are not white space, in order. */
  function Solid(s: string): string {
    if s == [] then []
    else Solid(s[..|s| - 1]) + if IsWhitespace(s[|s| - 1]) then [] else [s[|s| - 1]]
  }

  lemma {:induction false} SolidJoin(a: string, b: string)
    ensures Solid(a + b) == Solid(a) + Solid(b)
  {
    hide IsWhitespace;
    if b == [] {
      assert a + b == a;
    } else {
      SolidJoin(a, b[..|b| - 1]);
      assert (a + b)[..|a + b| - 1] == a + b[..|b| - 1] && (a + b)[|a + b| - 1] == b[|b| - 1];
      SolidNext(a + b);
      SolidNext(b);
    }
  }

  lemma SolidNext(s: string)
    requires s != []
    ensures Solid(s) == Solid(s[..|s| - 1]) + if IsWhitespace(s[|s| - 1]) then [] else [s[|s| - 1]]
  {
    hide IsWhitespace;
  }

  lemma {:induction false} SolidOfBlank(s: string)
    requires Blank(s)
    ensures Solid(s) == []
  {
    hide IsWhitespace;
    if s != [] { SolidOfBlank(s[..|s| - 1]); }
  }

  lemma CutBlank(blank: string, rest: string)
    requires Blank(blank)
    ensures Solid(blank) == [] && Solid(blank + rest) == Solid(rest)
  {
    SolidJoin(blank, rest);
    SolidOfBlank(blank);
  }

  lemma SolidOfTrimmed(s: string)
    ensures Solid(Trim(s)) == Solid(s) && Solid(TrimStart(s)) == Solid(s)
  {
    hide IsWhitespace, Solid, Blank, TrimStart, TrimEnd;
    var t := TrimStart(s);
    CutBlank(s[..|s| - |t|], t);
    assert s == s[..|s| - |t|] + t;
    var r := TrimEnd(t);
    CutBlank(t[|r|..], []);
    SolidJoin(r, t[|r|..]);
    assert t == r + t[|r|..];
  }

  function SolidOfAll(chunks: seq<string>): string {
    if chunks == [] then [] else SolidOfAll(chunks[..|chunks| - 1]) + Solid(chunks[|chunks| - 1])
  }

  lemma {:induction false} SolidOfAllJoin(a: seq<string>, b: seq<string>)
    ensures SolidOfAll(a + b) == SolidOfAll(a) + SolidOfAll(b)
  {
    hide Solid;
    if b == [] {
      assert a + b == a;
    } else {
      var front, last := b[..|b| - 1], b[|b| - 1];
      SolidOfAllJoin(a, front);
      assert (a + b)[..|a + b| - 1] == a + front && (a + b)[|a + b| - 1] == last;
      assert SolidOfAll(a + b) == SolidOfAll(a + front) + Solid(last);
    }
  }

  // ── Where to break ──────────────────────────────────────────────────────────

  /** Whether `pattern` stands in `s` at `at`. */
  predicate StandsAt(s: string, pattern: string, at: nat) {
    at + |pattern| <= |s| && s[at..at + |pattern|] == pattern
  }

  /** The last place of `pattern` in `s` before `from`. */
  function LastBefore(s: string, pattern: string, from: nat): (r: Option<nat>)
    ensures r.Some? ==> r.value < from && StandsAt(s, pattern, r.value)
    ensures forall i :: 0 <= i < from && StandsAt(s, pattern, i) ==> r.Some? && i <= r.value
  {
    if from == 0 then None
    else if StandsAt(s, pattern, from - 1) then Some(from - 1)
    else LastBefore(s, pattern, from - 1)
  }

  function LastPlace(s: string, pattern: string): (r: Option<nat>)
    ensures r.Some? ==> StandsAt(s, pattern, r.value)
    ensures forall i: nat :: StandsAt(s, pattern, i) ==> r.Some? && i <= r.value
  {
    LastBefore(s, pattern, |s| + 1)
  }

  /** One past the last place of the first pattern, in their order, that occurs at all. */
  function AfterFirstFound(s: string, patterns: seq<string>): (r: Option<nat>)
    ensures r.Some? ==> exists p :: p in patterns && |p| <= r.value <= |s| && StandsAt(s, p, r.value - |p|)
    ensures r.None? ==> forall p, i: nat :: p in patterns ==> !StandsAt(s, p, i)
  {
    if patterns == [] then None
    else match LastPlace(s, patterns[0])
      case Some(at) => Some(at + |patterns[0]|)
      case None => AfterFirstFound(s, patterns[1..])
  }

  const SENTENCE_ENDS: seq<string> := [". ", "? ", "! ", "\U{3002}", "\U{FF1F}", "\U{FF01}"]
  const CLAUSE_ENDS: seq<string> := [", ", "; ", ": ", "\U{3001}", "\U{FF0C}"]

  function Limit(text: string, budget: nat): nat {
    if budget < |text| then budget else |text|
  }

  /** Where to split: after a sentence, else after a clause, else after a word, else at the budget. */
  function BestBreak(text: string, budget: nat): (cut: nat)
    ensures cut <= Limit(text, budget)
  {
    var head := text[..Limit(text, budget)];
    match AfterFirstFound(head, SENTENCE_ENDS)
    case Some(cut) => cut
    case None =>
      match AfterFirstFound(head, CLAUSE_ENDS)
      case Some(cut) => cut
      case None =>
        match LastPlace(head, " ")
        case Some(at) => at + 1
        case None => Limit(text, budget)
  }

  /** `pattern` stands in the head at `at`, and no later. */
  ghost predicate LastlyAt(head: string, pattern: string, at: nat) {
    StandsAt(head, pattern, at) && forall i :: at < i <= |head| ==> !StandsAt(head, pattern, i)
  }

  /** None of the patterns occurs. */
  ghost predicate Lacks(head: string, patterns: seq<string>) {
    forall p, i: nat :: p in patterns ==> !StandsAt(head, p, i)
  }

  lemma {:induction false} FirstPatternFound(head: string, patterns: seq<string>, n: nat, at: nat)
    requires n < |patterns| && Lacks(head, patterns[..n]) && LastlyAt(head, patterns[n], at)
    ensures AfterFirstFound(head, patterns) == Some(at + |patterns[n]|)
  {
    if n == 0 {
      var last := LastPlace(head, patterns[0]);
      assert last.Some? && at <= last.value;
    } else {
      assert patterns[0] in patterns[..n] && patterns[1..][..n - 1] == patterns[..n][1..];
      FirstPatternFound(head, patterns[1..], n - 1, at);
    }
  }

  lemma LackedIsNotFound(head: string, patterns: seq<string>)
    requires Lacks(head, patterns)
    ensures AfterFirstFound(head, patterns).None?
  {}

  /**
   Where a text is split, of what fits the budget: after the last place of the first sentence end that
   occurs, or of the first clause end when there is no sentence end, or after the last space when there
   is neither, or else where the budget ends.
   */
  lemma WhereItBreaks(text: string, budget: nat, n: nat, at: nat)
    ensures var head := if budget < |text| then text[..budget] else text;
      && (n < |SENTENCE_ENDS| && Lacks(head, SENTENCE_ENDS[..n]) && LastlyAt(head, SENTENCE_ENDS[n], at) ==>
            BestBreak(text, budget) == at + |SENTENCE_ENDS[n]|)
      && (Lacks(head, SENTENCE_ENDS) && n < |CLAUSE_ENDS| && Lacks(head, CLAUSE_ENDS[..n]) && LastlyAt(head, CLAUSE_ENDS[n], at) ==>
            BestBreak(text, budget) == at + |CLAUSE_ENDS[n]|)
      && (Lacks(head, SENTENCE_ENDS) && Lacks(head, CLAUSE_ENDS) && LastlyAt(head, " ", at) ==> BestBreak(text, budget) == at + 1)
      && (Lacks(head, SENTENCE_ENDS) && Lacks(head, CLAUSE_ENDS) && Lacks(head, [" "]) ==> BestBreak(text, budget) == |head|)
  {
    hide StandsAt, AfterFirstFound, LastPlace;
    var head := if budget < |text| then text[..budget] else text;
    assert head == text[..Limit(text, budget)];
    if n < |SENTENCE_ENDS| && Lacks(head, SENTENCE_ENDS[..n]) && LastlyAt(head, SENTENCE_ENDS[n], at) {
      FirstPatternFound(head, SENTENCE_ENDS, n, at);
    }
    if Lacks(head, SENTENCE_ENDS) {
      LackedIsNotFound(head, SENTENCE_ENDS);
      if n < |CLAUSE_ENDS| && Lacks(head, CLAUSE_ENDS[..n]) && LastlyAt(head, CLAUSE_ENDS[n], at) {
        FirstPatternFound(head, CLAUSE_ENDS, n, at);
      }
      if Lacks(head, CLAUSE_ENDS) {
        LackedIsNotFound(head, CLAUSE_ENDS);
        LastSpace(head, at);
      }
    }
  }

  lemma LastSpace(head: string, at: nat)
    ensures LastlyAt(head, " ", at) ==> LastPlace(head, " ") == Some(at)
    ensures Lacks(head, [" "]) ==> LastPlace(head, " ").None?
  {
    assert " " in [" "];
  }

  predicate NoneEmpty(patterns: seq<string>) {
    forall p :: p in patterns ==> p != []
  }

  lemma PatternsAreNotEmpty()
    ensures NoneEmpty(SENTENCE_ENDS) && NoneEmpty(CLAUSE_ENDS)
  {}

  /** A break always moves on. */
  lemma BreakMovesOn(text: string, budget: nat)
    requires budget > 0 && text != []
    ensures BestBreak(text, budget) > 0
  {
    PatternsAreNotEmpty();
    hide AfterFirstFound, LastPlace, StandsAt;
  }

  /** What a break comes after, unless there is no place to break at all. */
  predicate BreaksAfter(c: char) {
    c == ' ' || c == '\U{3002}' || c == '\U{FF1F}' || c == '\U{FF01}' || c == '\U{3001}' || c == '\U{FF0C}'
  }

  predicate EndBreaks(patterns: seq<string>) {
    forall p :: p in patterns ==> p != [] && BreaksAfter(p[|p| - 1])
  }

  lemma PatternsEndBreaks()
    ensures EndBreaks(SENTENCE_ENDS) && EndBreaks(CLAUSE_ENDS)
  {}

  /** Never in the middle of a word: where the budget holds a space, the break follows a space or a full-width mark. */
  lemma NeverMidWord(text: string, budget: nat)
    requires ' ' in text[..Limit(text, budget)]
    ensures var cut := BestBreak(text, budget); cut > 0 && BreaksAfter(text[cut - 1])
  {
    BestBreakIs(text, budget);
    PatternsEndBreaks();
    hide *;
    var head := text[..Limit(text, budget)];
    var i :| 0 <= i < |head| && head[i] == ' ';
    SpaceBreaks(head, i);
    if AfterFirstFound(head, SENTENCE_ENDS).Some? {
      FoundEndsWell(head, SENTENCE_ENDS);
    } else if AfterFirstFound(head, CLAUSE_ENDS).Some? {
      FoundEndsWell(head, CLAUSE_ENDS);
    }
  }

  lemma BestBreakIs(text: string, budget: nat)
    ensures Limit(text, budget) <= |text|
    ensures var head := text[..Limit(text, budget)];
      var sentence, clause, word := AfterFirstFound(head, SENTENCE_ENDS), AfterFirstFound(head, CLAUSE_ENDS), LastPlace(head, " ");
      BestBreak(text, budget) ==
        if sentence.Some? then sentence.value else if clause.Some? then clause.value
        else if word.Some? then word.value + 1 else Limit(text, budget)
  {
    hide AfterFirstFound, LastPlace;
  }

  lemma SpaceBreaks(s: string, i: nat)
    requires i < |s| && s[i] == ' '
    ensures LastPlace(s, " ").Some? && LastPlace(s, " ").value < |s| && BreaksAfter(s[LastPlace(s, " ").value])
  {
    assert s[i..i + 1] == " ";
    assert StandsAt(s, " ", i);
    var at := LastPlace(s, " ").value;
    assert s[at] == s[at..at + 1][0];
  }

  lemma FoundEndsWell(s: string, patterns: seq<string>)
    requires EndBreaks(patterns) && AfterFirstFound(s, patterns).Some?
    ensures var cut := AfterFirstFound(s, patterns).value; 0 < cut <= |s| && BreaksAfter(s[cut - 1])
  {
    var cut := AfterFirstFound(s, patterns).value;
    var p :| p in patterns && |p| <= cut <= |s| && StandsAt(s, p, cut - |p|);
    assert s[cut - 1] == s[cut - |p|..cut][|p| - 1];
  }

  // ── Splitting ───────────────────────────────────────────────────────────────

  /** The chunks of a text that has no white space at its start. */
  function Chunks(rest: string, budget: nat): seq<string>
    requires budget > 0
    decreases |rest|
  {
    if |rest| <= budget then (if rest == [] then [] else [rest])
    else
      BreakMovesOn(rest, budget);
      var cut := BestBreak(rest, budget);
      [Trim(rest[..cut])] + Chunks(TrimStart(rest[cut..]), budget)
  }

  function SplitText(text: string, budget: nat): seq<string>
    requires budget > 0
  {
    Chunks(Trim(text), budget)
  }

  /**
   A break of a trimmed text leaves a head and starts a trimmed rest. So the loop below never meets an
   empty head, on which the program would stop early and keep the rest as one chunk.
   */
  lemma HeadIsNeverEmpty(rest: string, budget: nat)
    requires budget > 0 && |rest| > budget && Trimmed(rest)
    ensures BestBreak(rest, budget) <= |rest|
    ensures Trim(rest[..BestBreak(rest, budget)]) != [] && Trimmed(TrimStart(rest[BestBreak(rest, budget)..]))
  {
    hide IsWhitespace, Trim, TrimStart, BestBreak;
    BreakMovesOn(rest, budget);
    var cut := BestBreak(rest, budget);
    HeadIsGood(rest, cut, budget);
    if cut < |rest| { assert rest[cut..][|rest[cut..]| - 1] == rest[|rest| - 1]; }
    TailStartsWell(rest[cut..]);
  }

  method Split(text: string, budget: nat) returns (out: seq<string>)
    requires budget > 0
    ensures out == SplitText(text, budget)
  {
    hide *;
    SplitIs(text, budget);
    TrimCutsBlanks(text);
    out := [];
    var rest := Trim(text);
    while |rest| > budget
      invariant Trimmed(rest)
      invariant out + Chunks(rest, budget) == SplitText(text, budget)
      decreases |rest|
    {
      ChunksStep(rest, budget);
      HeadIsNeverEmpty(rest, budget);
      var cut := BestBreak(rest, budget);
      var head, tail := Trim(rest[..cut]), rest[cut..];
      assert head != [];
      out := out + [head];
      rest := TrimStart(tail);
    }
    ChunksEnd(rest, budget);
    if rest != [] { out := out + [rest]; }
  }

  lemma SplitIs(text: string, budget: nat)
    requires budget > 0
    ensures SplitText(text, budget) == Chunks(Trim(text), budget)
  {}

  lemma ChunksStep(rest: string, budget: nat)
    requires budget > 0 && |rest| > budget
    ensures 0 < BestBreak(rest, budget) <= |rest|
    ensures var cut := BestBreak(rest, budget);
      && |TrimStart(rest[cut..])| < |rest|
      && Chunks(rest, budget) == [Trim(rest[..cut])] + Chunks(TrimStart(rest[cut..]), budget)
  {
    hide BestBreak, Trim, TrimStart;
    BreakMovesOn(rest, budget);
  }

  lemma ChunksEnd(rest: string, budget: nat)
    requires budget > 0 && |rest| <= budget
    ensures Chunks(rest, budget) == if rest == [] then [] else [rest]
  {}

  /** Every chunk has something in it, no white space at its ends, and fits the budget. */
  ghost predicate GoodChunks(chunks: seq<string>, budget: nat) {
    forall c :: c in chunks ==> c != [] && Trimmed(c) && |c| <= budget
  }

  lemma HeadIsGood(rest: string, cut: nat, budget: nat)
    requires rest != [] && !IsWhitespace(rest[0]) && 0 < cut <= |rest| && cut <= budget
    ensures var head := Trim(rest[..cut]); head != [] && Trimmed(head) && |head| <= budget
  {
    hide IsWhitespace;
    TrimCutsBlanks(rest[..cut]);
    assert TrimStart(rest[..cut]) == rest[..cut];
    var r := TrimEnd(rest[..cut]);
  }

  lemma TailStartsWell(tail: string)
    requires tail != [] ==> !IsWhitespace(tail[|tail| - 1])
    ensures Trimmed(TrimStart(tail))
  {
    hide IsWhitespace;
    var t := TrimStart(tail);
    if t != [] { assert t[|t| - 1] == tail[|tail| - 1]; }
  }

  lemma {:induction false} ChunksAreGood(rest: string, budget: nat)
    requires budget > 0 && Trimmed(rest)
    ensures GoodChunks(Chunks(rest, budget), budget)
    decreases |rest|
  {
    hide IsWhitespace, Trim, TrimStart, BestBreak;
    if |rest| > budget {
      BreakMovesOn(rest, budget);
      var cut := BestBreak(rest, budget);
      HeadIsGood(rest, cut, budget);
      if cut < |rest| { assert rest[cut..][|rest[cut..]| - 1] == rest[|rest| - 1]; }
      TailStartsWell(rest[cut..]);
      ChunksAreGood(TrimStart(rest[cut..]), budget);
    }
  }

  lemma {:induction false} ChunksKeepText(rest: string, budget: nat)
    requires budget > 0
    ensures SolidOfAll(Chunks(rest, budget)) == Solid(rest)
    decreases |rest|
  {
    hide Trim, TrimStart, BestBreak, Solid;
    if |rest| > budget {
      BreakMovesOn(rest, budget);
      var cut := BestBreak(rest, budget);
      var head, tail := rest[..cut], rest[cut..];
      ChunksKeepText(TrimStart(tail), budget);
      SolidOfTrimmed(head);
      SolidOfTrimmed(tail);
      SolidJoin(head, tail);
      assert rest == head + tail;
      SolidOfAllJoin([Trim(head)], Chunks(TrimStart(tail), budget));
      SolidOfOne(Trim(head));
    } else if rest != [] {
      SolidOfOne(rest);
    } else {
      SolidOfNone();
    }
  }

  lemma SolidOfOne(c: string)
    ensures SolidOfAll([c]) == Solid(c)
  {
    hide Solid;
    assert [c][..0] == [];
    assert SolidOfAll([]) == [];
  }

  lemma SolidOfNone()
    ensures Solid([]) == [] && SolidOfAll([]) == []
  {}

  /** Splitting ends, makes chunks that fit, and loses nothing but white space. */
  lemma SplitKeepsText(text: string, budget: nat)
    requires budget > 0
    ensures GoodChunks(SplitText(text, budget), budget)
    ensures SolidOfAll(SplitText(text, budget)) == Solid(text)
  {
    hide Trim, Chunks, Solid;
    TrimCutsBlanks(text);
    ChunksAreGood(Trim(text), budget);
    ChunksKeepText(Trim(text), budget);
    SolidOfTrimmed(text);
  }

  // ── Wrapping ────────────────────────────────────────────────────────────────

  function JoinedWith(parts: seq<string>, separator: string): string {
    if parts == [] then []
    else if |parts| == 1 then parts[0]
    else JoinedWith(parts[..|parts| - 1], separator) + separator + parts[|parts| - 1]
  }

  /** The lines of a text longer than one line: the first chunk, and all the others on the second. */
  function Lines(text: string): seq<string> {
    var lines := SplitText(text, MAX_LINE_CHARS);
    if |lines| > MAX_LINES then lines[..MAX_LINES - 1] + [JoinedWith(lines[MAX_LINES - 1..], " ")] else lines
  }

  function Wrap(text: string): string {
    var trimmed := Trim(text);
    if |trimmed| <= MAX_LINE_CHARS then trimmed else JoinedWith(Lines(trimmed), "\n")
  }

  lemma {:induction false} SolidOfJoined(parts: seq<string>, separator: string)
    requires Blank(separator)
    ensures Solid(JoinedWith(parts, separator)) == SolidOfAll(parts)
  {
    hide Solid, Blank;
    if parts == [] {
      SolidOfNone();
    } else if |parts| == 1 {
      SolidOfOne(parts[0]);
      assert parts == [parts[0]];
    } else {
      var n := |parts| - 1;
      SolidOfJoined(parts[..n], separator);
      SolidJoin(JoinedWith(parts[..n], separator), separator + parts[n]);
      CutBlank(separator, parts[n]);
      assert JoinedWith(parts, separator) == JoinedWith(parts[..n], separator) + (separator + parts[n]);
    }
  }

  lemma WrapIs(text: string)
    ensures Wrap(text) == if |Trim(text)| <= MAX_LINE_CHARS then Trim(text) else JoinedWith(Lines(Trim(text)), "\n")
  {
    hide Trim, Lines, JoinedWith;
  }

  lemma LinesKeepText(text: string)
    ensures SolidOfAll(Lines(text)) == Solid(text)
  {
    hide Solid, SplitText, JoinedWith, Blank;
    var lines := SplitText(text, MAX_LINE_CHARS);
    SplitKeepsText(text, MAX_LINE_CHARS);
    SeparatorsAreBlank();
    if |lines| > MAX_LINES {
      var tail := JoinedWith(lines[1..], " ");
      SolidOfJoined(lines[1..], " ");
      SolidOfAllJoin(lines[..1], [tail]);
      SolidOfOne(tail);
      SolidOfAllJoin(lines[..1], lines[1..]);
      assert lines == lines[..1] + lines[1..];
    }
  }

  /** Wrapping loses nothing but white space. */
  lemma WrapKeepsText(text: string)
    ensures Solid(Wrap(text)) == Solid(text)
  {
    hide *;
    WrapIs(text);
    SolidOfTrimmed(text);
    LinesKeepText(Trim(text));
    SeparatorsAreBlank();
    SolidOfJoined(Lines(Trim(text)), "\n");
  }

  ghost predicate NoneHas(parts: seq<string>, c: char) {
    forall p :: p in parts ==> c !in p
  }

  lemma TrimHasNothingNew(s: string, c: char)
    requires c !in s
    ensures c !in Trim(s) && c !in TrimStart(s)
  {
    TrimCutsBlanks(s);
    hide IsWhitespace, Blank, Trim;
    var i, j :| 0 <= i <= j <= |s| && Blank(s[..i]) && Blank(s[j..]) && Trim(s) == s[i..j];
  }

  lemma {:induction false} ChunksHaveNothingNew(rest: string, budget: nat, c: char)
    requires budget > 0 && c !in rest
    ensures NoneHas(Chunks(rest, budget), c)
    decreases |rest|
  {
    hide Trim, TrimStart, BestBreak;
    if |rest| > budget {
      BreakMovesOn(rest, budget);
      var cut := BestBreak(rest, budget);
      TrimHasNothingNew(rest[..cut], c);
      TrimHasNothingNew(rest[cut..], c);
      ChunksHaveNothingNew(TrimStart(rest[cut..]), budget, c);
    }
  }

  lemma {:induction false} JoinedHasNothingNew(parts: seq<string>, separator: string, c: char)
    requires NoneHas(parts, c) && c !in separator
    ensures c !in JoinedWith(parts, separator)
  {
    if |parts| > 1 { JoinedHasNothingNew(parts[..|parts| - 1], separator, c); }
  }

  /** A text without line breaks wraps to one or two lines, the first of at most 42 characters. */
  lemma WrapsToTwoLines(text: string) returns (first: string, rest: Option<string>)
    requires '\n' !in text
    ensures Wrap(text) == first + if rest.Some? then "\n" + rest.value else []
    ensures '\n' !in first && |first| <= MAX_LINE_CHARS && (rest.Some? ==> '\n' !in rest.value)
  {
    hide Trim, Lines, Wrap, JoinedWith, SplitText;
    WrapIs(text);
    var trimmed := Trim(text);
    TrimHasNothingNew(text, '\n');
    if |trimmed| <= MAX_LINE_CHARS { return trimmed, None; }
    var lines := Lines(trimmed);
    LinesOf(trimmed, '\n');
    JoinedPair(lines, "\n");
    if lines == [] { return [], None; }
    return lines[0], if |lines| == 1 then None else Some(lines[1]);
  }

  lemma SplitIsChunks(text: string, c: char)
    requires c !in text
    ensures NoneHas(SplitText(text, MAX_LINE_CHARS), c) && GoodChunks(SplitText(text, MAX_LINE_CHARS), MAX_LINE_CHARS)
  {
    hide Trim, Chunks, Solid;
    TrimHasNothingNew(text, c);
    ChunksHaveNothingNew(Trim(text), MAX_LINE_CHARS, c);
    SplitKeepsText(text, MAX_LINE_CHARS);
  }

  lemma LinesOf(text: string, c: char)
    requires c !in text && c != ' '
    ensures |Lines(text)| <= MAX_LINES
    ensures Lines(text) != [] ==> c !in Lines(text)[0] && |Lines(text)[0]| <= MAX_LINE_CHARS
    ensures |Lines(text)| == 2 ==> c !in Lines(text)[1]
  {
    hide SplitText, JoinedWith, Trimmed;
    SplitIsChunks(text, c);
    var lines := SplitText(text, MAX_LINE_CHARS);
    if |lines| > MAX_LINES { JoinedHasNothingNew(lines[1..], " ", c); }
  }

  lemma JoinedPair(lines: seq<string>, separator: string)
    requires |lines| <= 2
    ensures JoinedWith(lines, separator) ==
      if lines == [] then [] else if |lines| == 1 then lines[0] else lines[0] + separator + lines[1]
  {
    if |lines| == 2 { assert lines[..1] == [lines[0]]; }
  }

  lemma SeparatorsAreBlank()
    ensures Blank(" ") && Blank("\n")
  {}

  // ── Splitting a long cue in time ────────────────────────────────────────────

  function TotalChars(parts: seq<string>): nat {
    if parts == [] then 0 else TotalChars(parts[..|parts| - 1]) + |parts[|parts| - 1]|
  }

  /** The pieces follow each other from `start` with no gap and no overlap. */
  ghost predicate Tiles(pieces: seq<Cue>, start: nat, end: nat) {
    if pieces == [] then start == end
    else
      var last := pieces[|pieces| - 1];
      last.startMs < last.endMs && last.endMs == end && Tiles(pieces[..|pieces| - 1], start, last.startMs)
  }

  /** The pieces carry the parts in order. */
  ghost predicate Carry(pieces: seq<Cue>, parts: seq<string>) {
    |pieces| == |parts| && forall i :: 0 <= i < |parts| ==> pieces[i].text == parts[i] && pieces[i].translated == None
  }

  /** Every piece but the last lasts as long as its part's share of the characters, to the millisecond. */
  ghost predicate Proportional(pieces: seq<Cue>, parts: seq<string>, duration: nat) {
    |pieces| <= |parts| && forall i :: 0 <= i < |pieces| && i < |parts| - 1 ==>
      pieces[i].startMs <= pieces[i].endMs
      && var lasts, total := pieces[i].endMs - pieces[i].startMs, TotalChars(parts);
         lasts * total <= duration * |parts[i]| < (lasts + 1) * total
  }

  lemma NothingShared(parts: seq<string>, duration: nat)
    ensures Proportional([], parts, duration)
  {}

  lemma OneShared(out: seq<Cue>, parts: seq<string>, duration: nat, piece: Cue)
    requires Proportional(out, parts, duration) && |out| < |parts| && TotalChars(parts) > 0
    requires |out| < |parts| - 1 ==> piece.endMs == piece.startMs + ShareOf(duration, |parts[|out|]|, TotalChars(parts))
    ensures Proportional(out + [piece], parts, duration)
  {
    hide TotalChars;
    var i := |out|;
    if i < |parts| - 1 {
      var all, total := duration * |parts[i]|, TotalChars(parts);
      var share := ShareOf(duration, |parts[i]|, total);
      assert all == total * share + all % total;
      assert (out + [piece])[i] == piece;
      assert (share + 1) * total == share * total + total;
    }
  }

  /** A part's share of the span is not empty. */
  predicate GetsTime(duration: nat, part: string, total: nat) {
    duration * |part| >= total
  }

  /** Every part but the last gets time of its own; the last one takes what is left. */
  ghost predicate AllGetTime(duration: nat, parts: seq<string>) {
    forall i :: 0 <= i < |parts| - 1 ==> GetsTime(duration, parts[i], TotalChars(parts))
  }

  lemma Share(duration: nat, total: nat, done: nat, chars: nat, elapsed: nat)
    requires done + chars <= total && chars > 0 && elapsed * total <= duration * done
    ensures var share := ShareOf(duration, chars, total);
      && (elapsed + share) * total <= duration * (done + chars)
      && elapsed + share <= duration
  {
    var share := ShareOf(duration, chars, total);
    assert duration * chars == total * share + (duration * chars) % total;
    assert share * total <= duration * chars;
    assert (elapsed + share) * total == elapsed * total + share * total;
    assert duration * (done + chars) == duration * done + duration * chars;
    NoMore(duration, done + chars, total, elapsed + share);
  }

  /** The span is not used up while characters are left. */
  lemma TimeIsLeft(duration: nat, total: nat, done: nat, elapsed: nat)
    requires done < total && duration > 0 && elapsed * total <= duration * done
    ensures elapsed < duration
  {
    assert duration * done < duration * total;
    if elapsed >= duration { More(duration, elapsed, total); }
  }

  lemma NoMore(duration: nat, some: nat, total: nat, elapsed: nat)
    requires some <= total && total > 0 && elapsed * total <= duration * some
    ensures elapsed <= duration
  {
    assert duration * some <= duration * total;
    if elapsed > duration {
      More(duration + 1, elapsed, total);
    }
  }

  lemma More(a: nat, b: nat, c: nat)
    requires a <= b
    ensures a * c <= b * c
  {}

  lemma ShareIsPositive(duration: nat, part: string, total: nat)
    requires total > 0
    ensures ShareOf(duration, |part|, total) > 0 <==> GetsTime(duration, part, total)
  {
    var all := duration * |part|;
    NotNegative(duration, |part|, total);
    assert all == total * (all / total) + all % total;
  }

  function ShareOf(duration: nat, chars: nat, total: nat): nat
    requires total > 0
  {
    NotNegative(duration, chars, total);
    duration * chars / total
  }

  lemma NotNegative(a: nat, b: nat, c: nat)
    requires c > 0
    ensures a * b / c >= 0
  {
    assert a * b >= 0;
  }

  /** Where the loop is after some parts: the pieces so far tile up to the cursor, which is not ahead of its share. */
  ghost predicate SpanSoFar(cue: Cue, out: seq<Cue>, cursor: nat, duration: nat, total: nat, done: nat) {
    Tiles(out, cue.startMs, cursor) && cue.startMs <= cursor && (cursor - cue.startMs) * total <= duration * done
  }

  lemma SpanNext(cue: Cue, out: seq<Cue>, cursor: nat, duration: nat, total: nat, done: nat, part: string)
    requires SpanSoFar(cue, out, cursor, duration, total, done) && done + |part| <= total && part != []
    requires cue.endMs == cue.startMs + duration && duration > 0
    ensures cursor < cue.endMs && Tiles(out + [Cue(cursor, cue.endMs, part, None)], cue.startMs, cue.endMs)
    ensures GetsTime(duration, part, total) ==>
      var share := ShareOf(duration, |part|, total);
      && cursor + share <= cue.endMs && share > 0
      && SpanSoFar(cue, out + [Cue(cursor, cursor + share, part, None)], cursor + share, duration, total, done + |part|)
  {
    hide Tiles, GetsTime;
    Share(duration, total, done, |part|, cursor - cue.startMs);
    TimeIsLeft(duration, total, done, cursor - cue.startMs);
    ShareIsPositive(duration, part, total);
    TilesNext(out, cue.startMs, cursor, Cue(cursor, cue.endMs, part, None));
    if GetsTime(duration, part, total) {
      TilesNext(out, cue.startMs, cursor, Cue(cursor, cursor + ShareOf(duration, |part|, total), part, None));
    }
  }

  /** Tiling pieces follow each other. */
  lemma {:induction false} TilesFollow(pieces: seq<Cue>, start: nat, end: nat, i: nat)
    requires Tiles(pieces, start, end) && i + 1 < |pieces|
    ensures pieces[i].endMs == pieces[i + 1].startMs
    decreases |pieces|
  {
    var front, last := pieces[..|pieces| - 1], pieces[|pieces| - 1];
    if i + 2 < |pieces| {
      TilesFollow(front, start, last.startMs, i);
    } else {
      assert front[|front| - 1] == pieces[i];
    }
  }

  lemma SpanStart(cue: Cue, duration: nat, total: nat)
    ensures SpanSoFar(cue, [], cue.startMs, duration, total, 0)
  {
    assert (cue.startMs - cue.startMs) * total == 0;
  }

  /** The piece runs into the next one, or past where the next one would start. */
  ghost predicate Overruns(out: seq<Cue>, cursor: nat, j: nat) {
    j < |out| && out[j].endMs > if j + 1 < |out| then out[j + 1].startMs else cursor
  }

  lemma OverrunsOn(out: seq<Cue>, cursor: nat, piece: Cue, end: nat, j: nat)
    requires Overruns(out, cursor, j) && piece.startMs == cursor
    ensures Overruns(out + [piece], end, j)
  {}

  lemma EmptyOverruns(out: seq<Cue>, piece: Cue, end: nat)
    requires piece.endMs > end
    ensures Overruns(out + [piece], end, |out|)
  {}

  lemma NoOverrun(out: seq<Cue>, cursor: nat, j: nat)
    requires j + 1 < |out| && out[j].endMs == out[j + 1].startMs
    ensures !Overruns(out, cursor, j)
  {}

  /**
   Share a cue's span among the parts of its text, in proportion to their length. The pieces tile the
   span if and only if every part but the last gets at least a millisecond.
   */
  method SharePieces(cue: Cue, parts: seq<string>, duration: nat) returns (out: seq<Cue>)
    requires |parts| > 1 && (forall p :: p in parts ==> p != [])
    requires duration == if cue.endMs >= cue.startMs then cue.endMs - cue.startMs else 0
    ensures Carry(out, parts) && out[0].startMs == cue.startMs
    ensures forall i :: 0 <= i < |out| ==> out[i].startMs < out[i].endMs
    ensures Tiles(out, cue.startMs, cue.endMs) <==> AllGetTime(duration, parts)
    ensures duration >= TotalChars(parts) ==> AllGetTime(duration, parts)
    ensures AllGetTime(duration, parts) ==> Proportional(out, parts, duration)
  {
    hide TotalChars, Tiles, Proportional, SpanSoFar, ShareOf, GetsTime, Overruns;
    var total := CountChars(parts);
    TotalIsPositive(parts);
    out := [];
    var cursor: nat := cue.startMs;
    SpanStart(cue, duration, total);
    NoChars();
    NoTime(duration, parts, total);
    NothingShared(parts, duration);
    for i := 0 to |parts|
      invariant Carry(out, parts[..i])
      invariant forall j :: 0 <= j < i ==> out[j].startMs < out[j].endMs
      invariant if i == 0 then cursor == cue.startMs else out[0].startMs == cue.startMs
      invariant AllGetTime(duration, parts) && i < |parts| ==> SpanSoFar(cue, out, cursor, duration, total, TotalChars(parts[..i]))
      invariant AllGetTime(duration, parts) && i == |parts| ==> Tiles(out, cue.startMs, cue.endMs)
      invariant AllGetTime(duration, parts) ==> Proportional(out, parts, duration)
      invariant forall j :: 0 <= j < i && j < |parts| - 1 && !GetsTime(duration, parts[j], total) ==> Overruns(out, cursor, j)
    {
      var part := parts[i];
      assert part in parts;
      var share := ShareOf(duration, |part|, total);
      ShareIsPositive(duration, part, total);
      var end: nat := if i + 1 == |parts| then cue.endMs
                      else if cursor + share < cue.endMs then cursor + share else cue.endMs;
      var piece := Cue(cursor, if end > cursor + 1 then end else cursor + 1, part, None);
      if AllGetTime(duration, parts) {
        CharsUpTo(parts, i);
        assert duration > 0 by { assert GetsTime(duration, parts[0], total); }
        SpanNext(cue, out, cursor, duration, total, TotalChars(parts[..i]), part);
        OneShared(out, parts, duration, piece);
      }
      forall j | 0 <= j <= i && j < |parts| - 1 && !GetsTime(duration, parts[j], total) ensures Overruns(out + [piece], end, j) {
        if j < i { OverrunsOn(out, cursor, piece, end, j); } else { EmptyOverruns(out, piece, end); }
      }
      out := out + [piece];
      cursor := end;
      assert parts[..i + 1] == parts[..i] + [part];
    }
    assert parts[..|parts|] == parts;
    if Tiles(out, cue.startMs, cue.endMs) {
      forall j | 0 <= j < |parts| - 1 ensures GetsTime(duration, parts[j], total) {
        TilesFollow(out, cue.startMs, cue.endMs, j);
        NoOverrun(out, cursor, j);
      }
    }
    if duration >= total { EnoughForAll(duration, parts, total); }
  }

  lemma NoTime(duration: nat, parts: seq<string>, total: nat)
    requires |parts| > 1 && total > 0
    ensures GetsTime(duration, parts[0], total) ==> duration > 0
  {}

  /** A text of 80 letters and one of 5, as the two halves of a long cue. */
  function TwoParts(): seq<string> { [seq(80, i => 'a'), seq(5, i => 'b')] }

  lemma TwoPartsTime(duration: nat)
    ensures TotalChars(TwoParts()) == 85
    ensures AllGetTime(duration, TwoParts()) <==> duration >= 2
  {
    var parts := TwoParts();
    assert parts[..1] == [parts[0]] && [parts[0]][..0] == [];
    assert TotalChars(parts[..1]) == 80;
    assert GetsTime(duration, parts[0], 85) <==> duration * 80 >= 85;
  }

  /** A cue of one millisecond whose pieces overlap, and one of 84, less than its characters, whose pieces tile. */
  method SomePieces() returns (overlapping: seq<Cue>, tiling: seq<Cue>)
    ensures Carry(overlapping, TwoParts()) && !Tiles(overlapping, 0, 1)
    ensures Carry(tiling, TwoParts()) && Tiles(tiling, 0, 84)
  {
    TwoPartsTime(1);
    TwoPartsTime(84);
    hide AllGetTime, Tiles, TotalChars;
    overlapping := SharePieces(Cue(0, 1, "", None), TwoParts(), 1);
    tiling := SharePieces(Cue(0, 84, "", None), TwoParts(), 84);
  }

  /** A millisecond for every character is time for all. */
  lemma EnoughForAll(duration: nat, parts: seq<string>, total: nat)
    requires duration >= total == TotalChars(parts) && (forall p :: p in parts ==> p != [])
    ensures AllGetTime(duration, parts)
  {
    hide TotalChars;
    forall i | 0 <= i < |parts| - 1 ensures GetsTime(duration, parts[i], total) {
      assert parts[i] in parts;
      More(1, |parts[i]|, duration);
    }
  }

  /**
   Split a cue that is too long to read or to stand: pieces that share its span in proportion to
   their text. They tile the span if and only if every part but the last gets at least a millisecond,
   so whenever the cue lasts a millisecond for every character.
   */
  method SplitLong(cue: Cue) returns (out: seq<Cue>)
    ensures |out| == 1 ==> out == [cue]
    ensures |out| == 1 <==>
      (|cue.text| <= MAX_LINE_CHARS * MAX_LINES && cue.endMs <= cue.startMs + MAX_CUE_MS)
      || |SplitText(cue.text, MAX_LINE_CHARS * MAX_LINES)| <= 1
    ensures out != [] && out[0].startMs == cue.startMs
    ensures |out| > 1 ==> Carry(out, SplitText(cue.text, MAX_LINE_CHARS * MAX_LINES))
    ensures |out| > 1 ==> forall i :: 0 <= i < |out| ==> out[i].startMs < out[i].endMs
    ensures |out| > 1 ==>
      var parts := SplitText(cue.text, MAX_LINE_CHARS * MAX_LINES);
      var duration := if cue.endMs >= cue.startMs then cue.endMs - cue.startMs else 0;
      && (Tiles(out, cue.startMs, cue.endMs) <==> AllGetTime(duration, parts))
      && (duration >= TotalChars(parts) ==> AllGetTime(duration, parts))
      && (AllGetTime(duration, parts) ==> Proportional(out, parts, duration))
  {
    hide SplitText, TotalChars, Tiles, Solid, Trimmed, AllGetTime, Proportional;
    var budget := MAX_LINE_CHARS * MAX_LINES;
    var duration := if cue.endMs >= cue.startMs then cue.endMs - cue.startMs else 0;
    if |cue.text| <= budget && duration <= MAX_CUE_MS { return [cue]; }
    var parts := Split(cue.text, budget);
    if |parts| <= 1 { return [cue]; }
    SplitKeepsText(cue.text, budget);
    out := SharePieces(cue, parts, duration);
  }

  method CountChars(parts: seq<string>) returns (total: nat)
    ensures total == (if TotalChars(parts) > 1 then TotalChars(parts) else 1)
  {
    var sum := 0;
    for i := 0 to |parts|
      invariant sum == TotalChars(parts[..i])
    {
      assert parts[..i + 1][..i] == parts[..i];
      sum := sum + |parts[i]|;
    }
    assert parts[..|parts|] == parts;
    total := if sum > 1 then sum else 1;
  }

  lemma {:induction false} CharsUpTo(parts: seq<string>, i: nat)
    requires i < |parts|
    ensures TotalChars(parts[..i + 1]) == TotalChars(parts[..i]) + |parts[i]| && TotalChars(parts[..i + 1]) <= TotalChars(parts)
    decreases |parts|
  {
    assert parts[..i + 1][..i] == parts[..i];
    if i + 1 < |parts| {
      var n := |parts| - 1;
      CharsUpTo(parts[..n], i);
      assert parts[..n][..i + 1] == parts[..i + 1] && parts[..n][..i] == parts[..i];
    } else {
      assert parts[..i + 1] == parts;
    }
  }

  lemma TotalIsPositive(parts: seq<string>)
    requires parts != [] && forall p :: p in parts ==> p != []
    ensures TotalChars(parts) > 0
  {
    assert parts[|parts| - 1] in parts;
  }

  lemma NoChars()
    ensures TotalChars([]) == 0
  {}

  lemma TilesNext(pieces: seq<Cue>, start: nat, cursor: nat, piece: Cue)
    requires Tiles(pieces, start, cursor) && piece.startMs == cursor < piece.endMs
    ensures Tiles(pieces + [piece], start, piece.endMs)
  {
    assert (pieces + [piece])[..|pieces|] == pieces;
  }
}

/**
 The translation pass: cues go to the model as numbered lines and come back matched by number, never
 by position.
 */
module Translate {
  import opened Wrappers
  import opened Text
  import opened Cues

  const BATCH := 25
  const MARKER: char := '\U{27E9}'

  // ── Lines ───────────────────────────────────────────────────────────────────

  /** The text on one line: each break is a space, and nothing else changes. */
  function Flattened(text: string): (r: string)
    ensures |r| == |text| && '\n' !in r
    ensures forall i :: 0 <= i < |text| ==> r[i] == if text[i] == '\n' then ' ' else text[i]
  {
    if text == [] then []
    else Flattened(text[..|text| - 1]) + [if text[|text| - 1] == '\n' then ' ' else text[|text| - 1]]
  }

  /** `<n>⟩ <text>`, one line per cue. */
  function NumberedLine(n: nat, text: string): string {
    ShowNat(n) + [MARKER, ' '] + text
  }

  function RenderedLines(cues: seq<Cue>, base: nat): (r: seq<string>)
    ensures |r| == |cues|
  {
    if cues == [] then []
    else RenderedLines(cues[..|cues| - 1], base) + [NumberedLine(base + |cues|, Flattened(cues[|cues| - 1].text))]
  }

  function JoinLines(lines: seq<string>): string {
    if lines == [] then []
    else if |lines| == 1 then lines[0]
    else JoinLines(lines[..|lines| - 1]) + "\n" + lines[|lines| - 1]
  }

  function RenderBatch(cues: seq<Cue>, base: nat): string {
    JoinLines(RenderedLines(cues, base))
  }

  /** The pieces between line breaks. */
  function Pieces(s: string): (r: seq<string>)
    ensures r != []
  {
    if s == [] then [[]]
    else
      var before, c := Pieces(s[..|s| - 1]), s[|s| - 1];
      if c == '\n' then before + [[]] else before[|before| - 1 := before[|before| - 1] + [c]]
  }

  /** `str::lines`: no last line after a final break (carriage returns go when the lines are trimmed). */
  function LinesOf(s: string): seq<string> {
    var pieces := Pieces(s);
    if pieces[|pieces| - 1] == [] then pieces[..|pieces| - 1] else pieces
  }

  // ── Reading a reply ─────────────────────────────────────────────────────────

  function IndexOf(s: string, c: char): (r: Option<nat>)
    ensures r.Some? ==> r.value < |s| && s[r.value] == c && c !in s[..r.value]
    ensures r.None? ==> c !in s
  {
    if s == [] then None
    else
      match IndexOf(s[..|s| - 1], c)
      case Some(i) => Some(i)
      case None => if s[|s| - 1] == c then Some(|s| - 1) else None
  }

  predicate IsBullet(c: char) {
    c == '-' || c == '*' || c == '\U{2022}'
  }

  function WithoutBullets(s: string): string {
    if s != [] && IsBullet(s[0]) then WithoutBullets(s[1..]) else s
  }

  /** The number and text of one line, if it has both. */
  function ParseLine(line: string): Option<(nat, string)> {
    var trimmed := Trim(line);
    match IndexOf(trimmed, MARKER)
    case None => None
    case Some(at) =>
      match ParseUsize(Trim(WithoutBullets(Trim(trimmed[..at]))))
      case None => None
      case Some(n) =>
        var text := Trim(trimmed[at + 1..]);
        if text == [] then None else Some((n, text))
  }

  /** The last text given under each number. */
  function ParsedLines(lines: seq<string>): map<nat, string> {
    if lines == [] then map[]
    else
      var before := ParsedLines(lines[..|lines| - 1]);
      match ParseLine(lines[|lines| - 1])
      case None => before
      case Some(found) => before[found.0 := found.1]
  }

  method ParseReply(reply: string) returns (out: map<nat, string>)
    ensures out == ParsedLines(LinesOf(reply))
  {
    hide ParseLine;
    out := map[];
    var lines := LinesOf(reply);
    for i := 0 to |lines|
      invariant out == ParsedLines(lines[..i])
    {
      assert lines[..i + 1][..i] == lines[..i];
      var found := ParseLine(lines[i]);
      if found.Some? { out := out[found.value.0 := found.value.1]; }
    }
    assert lines[..|lines|] == lines;
  }

  // ── Reading back what was rendered ──────────────────────────────────────────

  lemma {:induction false} PiecesOfJoin(a: string, b: string)
    requires '\n' !in b
    ensures Pieces(a + "\n" + b) == Pieces(a) + [b]
    decreases |b|
  {
    if b == [] {
      assert a + "\n" + b == a + "\n";
      assert (a + "\n")[..|a|] == a;
    } else {
      var n := |b| - 1;
      PiecesOfJoin(a, b[..n]);
      var s := a + "\n" + b;
      assert s[..|s| - 1] == a + "\n" + b[..n];
      assert b[..n] + [b[n]] == b;
    }
  }

  lemma {:induction false} PiecesOfOne(b: string)
    requires '\n' !in b
    ensures Pieces(b) == [b]
  {
    if b != [] {
      PiecesOfOne(b[..|b| - 1]);
      assert b[..|b| - 1] + [b[|b| - 1]] == b;
    }
  }

  ghost predicate NoBreaks(lines: seq<string>) {
    forall l :: l in lines ==> '\n' !in l && l != []
  }

  lemma {:induction false} LinesComeBack(lines: seq<string>)
    requires NoBreaks(lines)
    ensures LinesOf(JoinLines(lines)) == lines
  {
    if lines != [] {
      PiecesComeBack(lines);
      assert lines[|lines| - 1] in lines;
    }
  }

  lemma {:induction false} PiecesComeBack(lines: seq<string>)
    requires NoBreaks(lines) && lines != []
    ensures Pieces(JoinLines(lines)) == lines
  {
    var n := |lines| - 1;
    assert lines[n] in lines;
    if n == 0 {
      PiecesOfOne(lines[0]);
    } else {
      PiecesComeBack(lines[..n]);
      PiecesOfJoin(JoinLines(lines[..n]), lines[n]);
      assert lines == lines[..n] + [lines[n]];
    }
  }

  lemma DigitsAreNoSpace(s: string)
    requires AllDigits(s)
    ensures Trimmed(s) && MARKER !in s && '\n' !in s && (s != [] ==> !IsBullet(s[0]))
  {
    assert !IsDigit(MARKER) && !IsDigit('\n');
    assert forall i :: 0 <= i < |s| ==> IsDigit(s[i]);
  }

  /** A line that was rendered reads back as its number and its text, or as nothing when the text is blank. */
  lemma NumberedLineParses(n: nat, text: string)
    requires n <= USIZE_MAX
    ensures ParseLine(NumberedLine(n, text)) == if Trim(text) == [] then None else Some((n, Trim(text)))
  {
    var digits := ShowNat(n);
    DigitsAreNoSpace(digits);
    TrimmedIsFixed(digits);
    ShownUsizeParses(n);
    hide IsWhitespace, ParseUsize, ShowNat, Trim, TrimEnd, TrimStart, IndexOf, WithoutBullets;
    var rest := TrimEnd([' '] + text);
    TrimOfLine(digits, text);
    MarkerIsFirst(digits, rest);
    HeadOfLine(digits, rest);
    TrimOfRest(text);
    NoBullets(digits);
  }

  lemma HeadOfLine(digits: string, rest: string)
    ensures (digits + [MARKER] + rest)[..|digits|] == digits && (digits + [MARKER] + rest)[|digits| + 1..] == rest
  {}

  lemma NoBullets(s: string)
    requires s != [] ==> !IsBullet(s[0])
    ensures WithoutBullets(s) == s
  {}

  lemma TrimOfLine(digits: string, text: string)
    requires digits != [] && AllDigits(digits)
    ensures Trim(digits + [MARKER, ' '] + text) == digits + [MARKER] + TrimEnd([' '] + text)
  {
    DigitsAreNoSpace(digits);
    MarkerIsNoSpace();
    hide IsWhitespace, AllDigits;
    var head := digits + [MARKER];
    assert digits + [MARKER, ' '] + text == head + ([' '] + text);
    TrimEndOfJoin(head, [' '] + text);
    assert (head + ([' '] + text))[0] == digits[0];
  }

  lemma MarkerIsNoSpace()
    ensures !IsWhitespace(MARKER) && IsWhitespace(' ')
  {}

  lemma TrimOfRest(text: string)
    ensures Trim(TrimEnd([' '] + text)) == Trim(text)
  {
    MarkerIsNoSpace();
    TrimIgnoresEnd([' '] + text);
    TrimOfSpaced(' ', text);
  }

  lemma MarkerIsFirst(digits: string, rest: string)
    requires MARKER !in digits
    ensures IndexOf(digits + [MARKER] + rest, MARKER) == Some(|digits|)
  {
    var s := digits + [MARKER] + rest;
    assert s[|digits|] == MARKER;
    assert forall i :: 0 <= i < |digits| ==> s[i] == digits[i];
    assert forall k :: |digits| < k <= |s| ==> s[..k][|digits|] == MARKER;
  }

  // ── Replies that are no clean echo ──────────────────────────────────────────

  /** A line without the marker says nothing. */
  lemma ChatterIsIgnored(line: string)
    requires MARKER !in line
    ensures ParseLine(line) == None
  {
    TrimCutsBlanks(line);
    hide IsWhitespace, Trim;
  }

  lemma BlankIsNoBullet(s: string, rest: string)
    requires Blank(s)
    ensures MARKER !in s && (s != [] ==> !IsBullet(s[0])) && TrimStart(s + rest) == TrimStart(rest)
  {
    assert !IsWhitespace(MARKER);
    BlankStart(s, rest);
  }

  lemma BlankParts(s: string)
    requires Blank(s) && s != []
    ensures IsWhitespace(s[0]) && Blank(s[1..]) && IsWhitespace(s[|s| - 1]) && Blank(s[..|s| - 1])
  {
    hide IsWhitespace;
  }

  lemma {:induction false} BlankStart(s: string, rest: string)
    requires Blank(s)
    ensures TrimStart(s + rest) == TrimStart(rest)
  {
    hide IsWhitespace, Blank;
    if s == [] {
      assert s + rest == rest;
    } else {
      BlankParts(s);
      BlankStart(s[1..], rest);
      assert (s + rest)[1..] == s[1..] + rest && (s + rest)[0] == s[0];
    }
  }

  lemma {:induction false} BlankEnd(s: string, rest: string)
    requires Blank(rest) && s != [] && !IsWhitespace(s[|s| - 1])
    ensures TrimEnd(s + rest) == s
  {
    hide IsWhitespace, Blank;
    if rest == [] {
      assert s + rest == s;
    } else {
      BlankParts(rest);
      BlankEnd(s, rest[..|rest| - 1]);
      assert (s + rest)[..|s + rest| - 1] == s + rest[..|rest| - 1] && (s + rest)[|s + rest| - 1] == rest[|rest| - 1];
    }
  }

  lemma {:induction false} BulletsGo(bullets: string, rest: string)
    requires (forall c :: c in bullets ==> c in ['-', '*', '\U{2022}']) && (rest != [] ==> !IsBullet(rest[0]))
    ensures WithoutBullets(bullets + rest) == rest && MARKER !in bullets
    ensures bullets != [] ==> !IsWhitespace(bullets[0])
  {
    if bullets == [] {
      assert bullets + rest == rest;
    } else {
      assert bullets[0] in bullets;
      BulletsGo(bullets[1..], rest);
      assert (bullets + rest)[1..] == bullets[1..] + rest;
      assert bullets == [bullets[0]] + bullets[1..];
    }
  }

  /** A line the model made a list item of, with white space anywhere around, still gives its number and text. */
  lemma ListItemParses(lead: string, bullets: string, gap: string, n: nat, space: string, text: string)
    requires Blank(lead) && Blank(gap) && Blank(space) && n <= USIZE_MAX && Trim(text) != []
    requires bullets != [] && forall c :: c in bullets ==> c in ['-', '*', '\U{2022}']
    ensures ParseLine(lead + (bullets + (gap + ShowNat(n) + space) + [MARKER] + text)) == Some((n, Trim(text)))
  {
    var digits := ShowNat(n);
    var head := bullets + (gap + digits + space);
    var rest := TrimEnd(text);
    DigitsAreNoSpace(digits);
    ShownUsizeParses(n);
    assert IsDigit(digits[|digits| - 1]);
    HeadIsTrimmed(bullets, gap, digits, space);
    hide *;
    TrimOfItem(lead, head, text);
    assert bullets + (gap + ShowNat(n) + space) + [MARKER] + text == head + [MARKER] + text;
    MarkerIsFirst(head, rest);
    HeadOfLine(head, rest);
    TrimIgnoresEnd(text);
    ParsesAs(lead + (head + [MARKER] + text), head, digits, rest, n);
  }

  lemma TrimOfItem(lead: string, head: string, text: string)
    requires Blank(lead) && head != [] && !IsWhitespace(head[0])
    ensures Trim(lead + (head + [MARKER] + text)) == head + [MARKER] + TrimEnd(text)
  {
    var body := head + [MARKER] + text;
    BlankStart(lead, body);
    MarkerIsNoSpace();
    hide IsWhitespace, Blank, TrimStart, TrimEnd;
    StartsWithItself(body);
    TrimEndOfJoin(head + [MARKER], text);
  }

  /** How a line reads whose trimmed form has the marker after `head`. */
  lemma ParsesAs(line: string, head: string, digits: string, rest: string, n: nat)
    requires Trim(line) == head + [MARKER] + rest && IndexOf(head + [MARKER] + rest, MARKER) == Some(|head|)
    requires (head + [MARKER] + rest)[..|head|] == head && (head + [MARKER] + rest)[|head| + 1..] == rest
    requires Trim(WithoutBullets(Trim(head))) == digits && ParseUsize(digits) == Some(n)
    ensures ParseLine(line) == if Trim(rest) == [] then None else Some((n, Trim(rest)))
  {
    hide Trim, IndexOf, WithoutBullets, ParseUsize;
  }

  lemma StartsWithItself(s: string)
    requires s != [] && !IsWhitespace(s[0])
    ensures TrimStart(s) == s
  {}

  lemma HeadIsTrimmed(bullets: string, gap: string, digits: string, space: string)
    requires Blank(gap) && Blank(space) && AllDigits(digits) && digits != [] && IsDigit(digits[|digits| - 1])
    requires bullets != [] && forall c :: c in bullets ==> c in ['-', '*', '\U{2022}']
    ensures var head := bullets + (gap + digits + space);
      && MARKER !in head && !IsWhitespace(head[0]) && Trim(WithoutBullets(Trim(head))) == digits
  {
    hide *;
    var head, inner := bullets + (gap + digits + space), bullets + (gap + digits);
    ItemParts(bullets, gap, digits, space);
    assert head == inner + space && inner[|inner| - 1] == digits[|digits| - 1] && head[0] == bullets[0];
    BlankEnd(inner, space);
    StartsWithItself(head);
    TrimIs(head);
    TrimIs(gap + digits);
  }

  lemma ItemParts(bullets: string, gap: string, digits: string, space: string)
    requires Blank(gap) && Blank(space) && AllDigits(digits) && digits != [] && IsDigit(digits[|digits| - 1])
    requires bullets != [] && forall c :: c in bullets ==> c in ['-', '*', '\U{2022}']
    ensures MARKER !in bullets && MARKER !in gap && MARKER !in digits && MARKER !in space
    ensures !IsWhitespace(bullets[0]) && !IsWhitespace(digits[|digits| - 1])
    ensures WithoutBullets(bullets + (gap + digits)) == gap + digits && TrimStart(gap + digits) == digits && TrimEnd(digits) == digits
  {
    DigitsAreNoSpace(digits);
    DigitIsNoSpace(digits[|digits| - 1]);
    BlankIsNoBullet(gap, digits);
    BlankIsNoBullet(space, []);
    hide IsWhitespace, AllDigits, Blank, IsBullet, TrimStart, TrimEnd, Trim;
    TrimmedIsFixed(digits);
    assert gap != [] ==> (gap + digits)[0] == gap[0];
    BulletsGo(bullets, gap + digits);
  }

  lemma DigitIsNoSpace(c: char)
    requires IsDigit(c)
    ensures !IsWhitespace(c)
  {}

  lemma TrimIs(s: string)
    ensures Trim(s) == TrimEnd(TrimStart(s))
  {}

  /** Of several lines with one number the last counts. */
  lemma {:induction false} LastLineCounts(a: seq<string>, b: seq<string>)
    ensures ParsedLines(a + b) == ParsedLines(a) + ParsedLines(b)
    ensures |b| == 1 ==>
      (ParsedLines(b) == if ParseLine(b[0]).None? then map[] else map[ParseLine(b[0]).value.0 := ParseLine(b[0]).value.1])
  {
    hide ParseLine;
    if b == [] {
      assert a + b == a;
    } else {
      LastLineCounts(a, b[..|b| - 1]);
      assert (a + b)[..|a + b| - 1] == a + b[..|b| - 1];
    }
  }

  /** What a perfect echo of a batch holds: every cue that is not blank, under its own number. */
  function Echo(cues: seq<Cue>, base: nat): map<nat, string> {
    if cues == [] then map[]
    else
      var before, text := Echo(cues[..|cues| - 1], base), Trim(Flattened(cues[|cues| - 1].text));
      if text == [] then before else before[base + |cues| := text]
  }

  lemma {:induction false} RenderedHasNoBreaks(cues: seq<Cue>, base: nat)
    ensures NoBreaks(RenderedLines(cues, base))
  {
    if cues != [] {
      RenderedHasNoBreaks(cues[..|cues| - 1], base);
      DigitsAreNoSpace(ShowNat(base + |cues|));
    }
  }

  lemma {:induction false} RenderedParses(cues: seq<Cue>, base: nat)
    requires base + |cues| <= USIZE_MAX
    ensures ParsedLines(RenderedLines(cues, base)) == Echo(cues, base)
  {
    hide ParseLine, NumberedLine, Trim, Flattened;
    if cues != [] {
      RenderedParses(cues[..|cues| - 1], base);
      NumberedLineParses(base + |cues|, Flattened(cues[|cues| - 1].text));
    }
  }

  /** Parsing inverts rendering, for every list of cues: line breaks flattened, blanks absent, markers in the text kept. */
  lemma ReplyInvertsBatch(cues: seq<Cue>, base: nat)
    requires base + |cues| <= USIZE_MAX
    ensures ParsedLines(LinesOf(RenderBatch(cues, base))) == Echo(cues, base)
  {
    hide *;
    RenderBatchIs(cues, base);
    RenderedHasNoBreaks(cues, base);
    LinesComeBack(RenderedLines(cues, base));
    RenderedParses(cues, base);
  }

  lemma RenderBatchIs(cues: seq<Cue>, base: nat)
    ensures RenderBatch(cues, base) == JoinLines(RenderedLines(cues, base))
  {}

  lemma {:induction false} EchoAt(cues: seq<Cue>, base: nat, n: nat)
    ensures n in Echo(cues, base) <==> base < n <= base + |cues| && Trim(Flattened(cues[n - base - 1].text)) != []
    ensures n in Echo(cues, base) ==> Echo(cues, base)[n] == Trim(Flattened(cues[n - base - 1].text))
  {
    hide Trim, Flattened;
    if cues != [] { EchoAt(cues[..|cues| - 1], base, n); }
  }

  // ── A line that comes back without its number ───────────────────────────────

  /** The first line with something in it that is no code fence. */
  function SingleLineFallback(lines: seq<string>): Option<string> {
    if lines == [] then None
    else
      var line := Trim(lines[0]);
      if line != [] && !("```" <= line) then Some(line) else SingleLineFallback(lines[1..])
  }

  /** It is the first line that says something, fences of code aside. */
  lemma {:induction false} FallbackIsFirst(lines: seq<string>, i: nat)
    requires i < |lines| && Trim(lines[i]) != [] && !("```" <= Trim(lines[i]))
    requires forall j :: 0 <= j < i ==> Trim(lines[j]) == [] || "```" <= Trim(lines[j])
    ensures SingleLineFallback(lines) == Some(Trim(lines[i]))
  {
    hide Trim;
    if i > 0 { FallbackIsFirst(lines[1..], i - 1); }
  }

  lemma {:induction false} NoFallback(lines: seq<string>)
    requires forall l :: l in lines ==> Trim(l) == [] || "```" <= Trim(l)
    ensures SingleLineFallback(lines) == None
  {
    hide Trim;
    if lines != [] { NoFallback(lines[1..]); }
  }

  /**
   A reply to a single request that numbers its line differently is taken as it is, number and all: the
   fallback does not look for a number.
   */
  lemma OtherNumberIsKept(reply: string, n: nat)
    requires '\n' !in reply && Trim(reply) != [] && !("```" <= Trim(reply))
    requires ParseLine(reply).Some? && ParseLine(reply).value.0 != n
    ensures AloneText(Some(reply), n) == Some(Trim(reply))
  {
    hide Trim, ParseLine;
    PiecesOfOne(reply);
    TrimIs([]);
    assert reply != [];
    assert LinesOf(reply) == [reply];
    assert [reply][..0] == [];
    FallbackIsFirst([reply], 0);
    LastLineCounts([], [reply]);
  }

  // ── The whole pass ──────────────────────────────────────────────────────────

  datatype Exchange = Exchange(request: string, reply: Option<string>)

  /** The model and the cancel button: what each call answers is up to the outside world. */
  class Gateway {
    const answers: (nat, string) -> Option<string>
    const canceled: nat -> bool
    var calls: nat
    var polls: nat
    /** Everything asked and answered, in order. */
    ghost var log: seq<Exchange>

    constructor (answers: (nat, string) -> Option<string>, canceled: nat -> bool)
      ensures this.answers == answers && this.canceled == canceled
      ensures calls == 0 && polls == 0 && log == []
    {
      this.answers, this.canceled, calls, polls, log := answers, canceled, 0, 0, [];
    }

    method Complete(request: string) returns (reply: Option<string>)
      modifies this
      ensures reply == answers(old(calls), request) && log == old(log) + [Exchange(request, reply)]
      ensures calls == old(calls) + 1 && polls == old(polls)
    {
      reply := answers(calls, request);
      calls := calls + 1;
      log := log + [Exchange(request, reply)];
    }

    method ShouldCancel() returns (stop: bool)
      modifies this`polls
      ensures stop == canceled(old(polls)) && polls == old(polls) + 1
    {
      stop := canceled(polls);
      polls := polls + 1;
    }
  }

  /** The batch that cue `i` is sent in starts here. */
  function BatchBase(i: nat): nat { i / BATCH * BATCH }

  function BatchOf(cues: seq<Cue>, base: nat): seq<Cue>
    requires base <= |cues|
  {
    cues[base..if base + BATCH < |cues| then base + BATCH else |cues|]
  }

  function BatchRequest(cues: seq<Cue>, base: nat): string
    requires base <= |cues|
  {
    RenderBatch(BatchOf(cues, base), base)
  }

  function LineRequest(cues: seq<Cue>, i: nat): string
    requires i < |cues|
  {
    NumberedLine(i + 1, cues[i].text)
  }

  /** The texts a reply gives, by number; none when there was an error. */
  function Texts(reply: Option<string>): map<nat, string> {
    if reply.None? then map[] else ParsedLines(LinesOf(reply.value))
  }

  /** What a reply to a request for line `n` alone gives it: its own number's text, else the first line. */
  function AloneText(reply: Option<string>, n: nat): Option<string> {
    if n in Texts(reply) then Some(Texts(reply)[n])
    else if reply.Some? then SingleLineFallback(LinesOf(reply.value)) else None
  }

  function Translated(c: Cue, text: Option<string>): Cue {
    if text.Some? && Trim(text.value) != [] then c.(translated := Some(Trim(text.value))) else c
  }

  /**
   What a talk about a batch gives cue `i`: the batch reply's text under the cue's own number, else
   what its own single request within the talk was answered.
   */
  ghost predicate TextFor(talk: seq<Exchange>, cues: seq<Cue>, i: nat, text: Option<string>) {
    && i < |cues| && talk != [] && talk[0].request == BatchRequest(cues, BatchBase(i))
    && if i + 1 in Texts(talk[0].reply) then text == Some(Texts(talk[0].reply)[i + 1])
       else exists d :: 0 < d < |talk| && AnswersLine(talk[d], cues, i, text)
  }

  ghost predicate AnswersLine(e: Exchange, cues: seq<Cue>, i: nat, text: Option<string>)
    requires i < |cues|
  {
    && e.request == LineRequest(cues, i)
    && match e.reply
       case None => text == None
       case Some(reply) =>
         var lines := LinesOf(reply);
         text == if i + 1 in ParsedLines(lines) then Some(ParsedLines(lines)[i + 1]) else SingleLineFallback(lines)
  }

  function Requests(talk: seq<Exchange>): (r: seq<string>)
    ensures |r| == |talk|
  {
    if talk == [] then [] else Requests(talk[..|talk| - 1]) + [talk[|talk| - 1].request]
  }

  /** The single requests for the lines from `base` on that a batch reply did not answer, in order. */
  function LineRequests(texts: map<nat, string>, cues: seq<Cue>, base: nat, upTo: nat): seq<string>
    requires upTo <= |cues|
  {
    if upTo <= base then []
    else LineRequests(texts, cues, base, upTo - 1) + if upTo in texts then [] else [LineRequest(cues, upTo - 1)]
  }

  /** The batch was asked for once, then each line its reply left out, once and in order. */
  ghost predicate AskedInOrder(talk: seq<Exchange>, cues: seq<Cue>, base: nat, upTo: nat)
    requires base <= upTo <= |cues|
  {
    talk != [] && Requests(talk) == [BatchRequest(cues, base)] + LineRequests(Texts(talk[0].reply), cues, base, upTo)
  }

  /** Every number of a batch holds what the talk gave its cue. */
  ghost predicate BatchAnswered(talk: seq<Exchange>, cues: seq<Cue>, base: nat, upTo: nat, got: map<nat, string>) {
    forall i :: base <= i < upTo ==> LineAnswered(talk, cues, i, got)
  }

  ghost predicate LineAnswered(talk: seq<Exchange>, cues: seq<Cue>, i: nat, got: map<nat, string>) {
    TextFor(talk, cues, i, Held(got, i + 1))
  }

  function Held(got: map<nat, string>, n: nat): Option<string> {
    if n in got then Some(got[n]) else None
  }

  /** The requests name each cue by the number its answer is looked up under: alone, and in its batch. */
  lemma RequestsNameTheirCues(cues: seq<Cue>, i: nat)
    requires i < |cues| <= USIZE_MAX && Trim(cues[i].text) != []
    ensures ParseLine(LineRequest(cues, i)) == Some((i + 1, Trim(cues[i].text)))
    ensures BatchBase(i) <= i < BatchBase(i) + 25 && BatchBase(i) % 25 == 0
    ensures Trim(Flattened(cues[i].text)) != [] ==>
      var texts := Texts(Some(BatchRequest(cues, BatchBase(i))));
      i + 1 in texts && texts[i + 1] == Trim(Flattened(cues[i].text))
    ensures Texts(None) == map[]
  {
    hide *;
    NumberedLineParses(i + 1, cues[i].text);
    var base := BatchBase(i);
    BatchHolds(cues, i);
    LineRequestIs(cues, i);
    ReplyInvertsBatch(BatchOf(cues, base), base);
    EchoAt(BatchOf(cues, base), base, i + 1);
    TextsOfBatch(cues, base);
  }

  lemma BatchHolds(cues: seq<Cue>, i: nat)
    requires i < |cues|
    ensures var base := BatchBase(i);
      && base <= i < base + 25 && base % 25 == 0 && base <= |cues|
      && i - base < |BatchOf(cues, base)| && BatchOf(cues, base)[i - base] == cues[i] && base + |BatchOf(cues, base)| <= |cues|
  {}

  lemma LineRequestIs(cues: seq<Cue>, i: nat)
    requires i < |cues|
    ensures LineRequest(cues, i) == NumberedLine(i + 1, cues[i].text)
  {}

  lemma TextsOfBatch(cues: seq<Cue>, base: nat)
    requires base <= |cues|
    ensures Texts(Some(BatchRequest(cues, base))) == ParsedLines(LinesOf(RenderBatch(BatchOf(cues, base), base)))
    ensures Texts(None) == map[]
  {}

  /** One more exchange takes no text away. */
  lemma TextStays(talk: seq<Exchange>, e: Exchange, cues: seq<Cue>, i: nat, text: Option<string>)
    requires TextFor(talk, cues, i, text)
    ensures TextFor(talk + [e], cues, i, text)
  {
    hide BatchRequest, Texts, AnswersLine;
    if i + 1 !in Texts(talk[0].reply) {
      var d :| 0 < d < |talk| && AnswersLine(talk[d], cues, i, text);
      assert (talk + [e])[d] == talk[d];
    }
  }

  lemma AnsweredStays(talk: seq<Exchange>, e: Exchange, cues: seq<Cue>, base: nat, upTo: nat, got: map<nat, string>)
    requires BatchAnswered(talk, cues, base, upTo, got)
    ensures BatchAnswered(talk + [e], cues, base, upTo, got)
  {
    hide TextFor;
    forall i | base <= i < upTo ensures LineAnswered(talk + [e], cues, i, got) {
      assert LineAnswered(talk, cues, i, got);
      TextStays(talk, e, cues, i, Held(got, i + 1));
    }
  }

  /** The answer to a line's own request is what the line is given. */
  lemma OneMoreLine(talk: seq<Exchange>, e: Exchange, cues: seq<Cue>, base: nat, i: nat)
    requires base <= i < |cues| && base == BatchBase(i) && AskedInOrder(talk, cues, base, i)
    requires e.request == LineRequest(cues, i) && i + 1 !in Texts(talk[0].reply)
    ensures AskedInOrder(talk + [e], cues, base, i + 1)
    ensures TextFor(talk + [e], cues, i, AloneText(e.reply, i + 1))
  {
    AloneAnswers(e, cues, i);
    hide BatchRequest, LineRequest, Texts, AloneText, AnswersLine;
    assert Requests(talk)[0] == talk[0].request by { FirstRequest(talk); }
    assert (talk + [e])[..|talk|] == talk && (talk + [e])[|talk|] == e;
    assert AnswersLine((talk + [e])[|talk|], cues, i, AloneText(e.reply, i + 1));
  }

  lemma AloneAnswers(e: Exchange, cues: seq<Cue>, i: nat)
    requires i < |cues| && e.request == LineRequest(cues, i)
    ensures AnswersLine(e, cues, i, AloneText(e.reply, i + 1))
  {
    hide ParsedLines, LinesOf, SingleLineFallback;
  }

  lemma {:induction false} FirstRequest(talk: seq<Exchange>)
    requires talk != []
    ensures Requests(talk)[0] == talk[0].request
  {
    if |talk| > 1 { FirstRequest(talk[..|talk| - 1]); }
  }

  /** A line the batch reply answered needs no request of its own. */
  lemma AlreadyAnswered(talk: seq<Exchange>, cues: seq<Cue>, base: nat, i: nat)
    requires base <= i < |cues| && base == BatchBase(i) && AskedInOrder(talk, cues, base, i) && i + 1 in Texts(talk[0].reply)
    ensures AskedInOrder(talk, cues, base, i + 1)
    ensures TextFor(talk, cues, i, Some(Texts(talk[0].reply)[i + 1]))
  {
    hide BatchRequest, LineRequest, Texts;
    FirstRequest(talk);
  }

  lemma SameHeld(talk: seq<Exchange>, cues: seq<Cue>, base: nat, upTo: nat, got: map<nat, string>, got': map<nat, string>)
    requires BatchAnswered(talk, cues, base, upTo, got) && forall n :: base < n <= upTo ==> Held(got', n) == Held(got, n)
    ensures BatchAnswered(talk, cues, base, upTo, got')
  {
    hide TextFor;
    forall i | base <= i < upTo ensures LineAnswered(talk, cues, i, got') {
      assert LineAnswered(talk, cues, i, got) && Held(got', i + 1) == Held(got, i + 1);
    }
  }

  /** Ask for a batch, then alone for every line it did not answer; `None` when cancelled. */
  method AskBatch(gateway: Gateway, cues: seq<Cue>, base: nat, count: nat)
    returns (got: Option<map<nat, string>>, ghost talk: seq<Exchange>)
    requires base % BATCH == 0 && count <= BATCH && base + count <= |cues|
    modifies gateway
    ensures gateway.log == old(gateway.log) + talk
    ensures got.Some? ==> AskedInOrder(talk, cues, base, base + count)
    ensures got.Some? ==> BatchAnswered(talk, cues, base, base + count, got.value)
  {
    hide RenderBatch, LinesOf, ParsedLines, BatchRequest, LineRequest, Texts, TextFor, AloneText, AskedInOrder, LineRequests;
    var reply := gateway.Complete(BatchRequest(cues, base));
    talk := [Exchange(BatchRequest(cues, base), reply)];
    NothingAsked(talk, cues, base);
    var all: map<nat, string> := Texts(reply);
    for offset := 0 to count
      invariant gateway.log == old(gateway.log) + talk && talk != [] && talk[0].reply == reply
      invariant AskedInOrder(talk, cues, base, base + offset)
      invariant BatchAnswered(talk, cues, base, base + offset, all)
      invariant forall n :: n > base + offset ==> Held(all, n) == Held(Texts(reply), n)
    {
      var i := base + offset;
      var n := i + 1;
      ghost var before := all;
      BaseOf(base, offset);
      assert Held(all, n) == Held(Texts(reply), n);
      if n !in all {
        var stop := gateway.ShouldCancel();
        if stop { return None, talk; }
        var alone := gateway.Complete(LineRequest(cues, i));
        var text := AloneText(alone, n);
        ghost var e := Exchange(LineRequest(cues, i), alone);
        OneMoreLine(talk, e, cues, base, i);
        AnsweredStays(talk, e, cues, base, i, all);
        talk := talk + [e];
        if text.Some? { all := all[n := text.value]; }
        assert Held(all, n) == text;
      } else {
        AlreadyAnswered(talk, cues, base, i);
      }
      assert forall m :: m != n ==> Held(all, m) == Held(before, m);
      SameHeld(talk, cues, base, i, before, all);
      assert LineAnswered(talk, cues, i, all);
    }
    got := Some(all);
  }

  lemma NothingAsked(talk: seq<Exchange>, cues: seq<Cue>, base: nat)
    requires base <= |cues| && |talk| == 1 && talk[0].request == BatchRequest(cues, base)
    ensures AskedInOrder(talk, cues, base, base)
  {
    FirstRequest(talk);
  }

  lemma BaseOf(base: nat, offset: nat)
    requires base % BATCH == 0 && offset < BATCH
    ensures BatchBase(base + offset) == base && (base + offset) / BATCH == base / BATCH
  {}

  /** The cues in `touched` hold what they were given; no other cue, and nothing else of these, changed. */
  ghost predicate OnlyTranslated(talks: seq<seq<Exchange>>, cues: seq<Cue>, out: seq<Cue>, touched: set<nat>, upTo: nat) {
    && |out| == |cues| && upTo <= |cues|
    && (forall i :: i in touched ==> i < upTo)
    && (forall i :: 0 <= i < upTo ==> i / BATCH < |talks| && Follows(talks[i / BATCH], cues, i, out[i], i in touched))
    && (forall i :: upTo <= i < |cues| ==> out[i] == cues[i])
  }

  /** A cue is what it was, but translated by what its batch's talk gave it, if that is anything. */
  ghost predicate Follows(talk: seq<Exchange>, cues: seq<Cue>, i: nat, after: Cue, isSet: bool) {
    && i < |cues|
    && exists text :: TextFor(talk, cues, i, text) && (isSet <==> text.Some? && Trim(text.value) != [])
         && after == if isSet then cues[i].(translated := Some(Trim(text.value))) else cues[i]
  }

  /** One talk more. */
  lemma TalkOn(talks: seq<seq<Exchange>>, talk: seq<Exchange>, cues: seq<Cue>, out: seq<Cue>, touched: set<nat>, upTo: nat)
    requires OnlyTranslated(talks, cues, out, touched, upTo)
    ensures OnlyTranslated(talks + [talk], cues, out, touched, upTo)
  {
    hide Follows;
    forall i | 0 <= i < upTo ensures Follows((talks + [talk])[i / BATCH], cues, i, out[i], i in touched) {
      assert (talks + [talk])[i / BATCH] == talks[i / BATCH];
    }
  }

  lemma NextCue(talks: seq<seq<Exchange>>, cues: seq<Cue>, out: seq<Cue>, touched: set<nat>, i: nat, text: Option<string>)
    requires OnlyTranslated(talks, cues, out, touched, i) && i < |cues|
    requires i / BATCH < |talks| && TextFor(talks[i / BATCH], cues, i, text)
    ensures var isSet := text.Some? && Trim(text.value) != [];
      var more := if isSet then touched + {i} else touched;
      && OnlyTranslated(talks, cues, out[i := Translated(cues[i], text)], more, i + 1)
      && |more| == |touched| + (if isSet then 1 else 0)
  {
    hide TextFor, Trim;
    assert i !in touched;
    assert Follows(talks[i / BATCH], cues, i, Translated(cues[i], text), text.Some? && Trim(text.value) != []);
  }

  /** Write a batch's texts into its cues. */
  method FillBatch(cues: seq<Cue>, before: seq<Cue>, base: nat, count: nat, got: map<nat, string>,
                   ghost talks: seq<seq<Exchange>>, ghost touchedBefore: set<nat>)
    returns (out: seq<Cue>, translated: nat, ghost touched: set<nat>)
    requires base % BATCH == 0 && count <= BATCH && base + count <= |cues| && base / BATCH < |talks|
    requires BatchAnswered(talks[base / BATCH], cues, base, base + count, got)
    requires OnlyTranslated(talks, cues, before, touchedBefore, base)
    ensures OnlyTranslated(talks, cues, out, touched, base + count)
    ensures |touched| == |touchedBefore| + translated
  {
    hide TextFor, Trim, Follows;
    out, translated, touched := before, 0, touchedBefore;
    for offset := 0 to count
      invariant OnlyTranslated(talks, cues, out, touched, base + offset)
      invariant |touched| == |touchedBefore| + translated
    {
      var i := base + offset;
      BaseOf(base, offset);
      assert LineAnswered(talks[i / BATCH], cues, i, got);
      NextCue(talks, cues, out, touched, i, Held(got, i + 1));
      assert out[i] == cues[i];
      if i + 1 in got {
        var text := Trim(got[i + 1]);
        if text != [] {
          out := out[i := out[i].(translated := Some(text))];
          translated := translated + 1;
          touched := touched + {i};
        }
      }
      assert out[i := out[i]] == out;
    }
  }

  /** All exchanges of some talks, in order. */
  function Exchanges(talks: seq<seq<Exchange>>): seq<Exchange> {
    if talks == [] then [] else Exchanges(talks[..|talks| - 1]) + talks[|talks| - 1]
  }

  /** Every batch was asked for in order, each talk about its own lines. */
  ghost predicate TalksInOrder(talks: seq<seq<Exchange>>, cues: seq<Cue>) {
    forall k :: 0 <= k < |talks| ==> TalkOfBatch(talks[k], cues, k)
  }

  ghost predicate TalkOfBatch(talk: seq<Exchange>, cues: seq<Cue>, k: nat) {
    k * BATCH < |cues| && AskedInOrder(talk, cues, k * BATCH, k * BATCH + |BatchOf(cues, k * BATCH)|)
  }

  lemma ExchangesOn(talks: seq<seq<Exchange>>, talk: seq<Exchange>)
    ensures Exchanges(talks + [talk]) == Exchanges(talks) + talk
  {
    assert (talks + [talk])[..|talks|] == talks;
  }

  lemma TalksOn(talks: seq<seq<Exchange>>, talk: seq<Exchange>, cues: seq<Cue>)
    requires TalksInOrder(talks, cues) && TalkOfBatch(talk, cues, |talks|)
    ensures TalksInOrder(talks + [talk], cues)
  {
    hide TalkOfBatch;
  }

  lemma ThisBatch(talk: seq<Exchange>, cues: seq<Cue>, k: nat, base: nat)
    requires base == k * BATCH < |cues| && AskedInOrder(talk, cues, base, base + |BatchOf(cues, base)|)
    ensures TalkOfBatch(talk, cues, k)
  {
    hide AskedInOrder;
  }

  /**
   Translate every cue. Whatever the model replies, only translations are written, each cue holds
   exactly what its number was given in the talk about its batch, and the count is that of the cues
   set. The talks are all that was said in this call, each batch asked for once and then each line its
   reply left out. `None` when cancelled, which leaves the cues from some batch on as they were.
   */
  method TranslateCues(gateway: Gateway, cues: seq<Cue>)
    returns (r: Option<nat>, out: seq<Cue>, ghost talks: seq<seq<Exchange>>, ghost touched: set<nat>, ghost upTo: nat)
    modifies gateway
    ensures OnlyTranslated(talks, cues, out, touched, upTo) && TalksInOrder(talks, cues)
    ensures old(gateway.log) + Exchanges(talks) <= gateway.log
    ensures r.Some? ==> upTo == |cues| && r.value == |touched| && gateway.log == old(gateway.log) + Exchanges(talks)
  {
    hide OnlyTranslated, BatchAnswered, TalksInOrder, AskedInOrder, Exchanges;
    out, talks, touched, upTo := cues, [], {}, 0;
    NothingTouched(cues);
    var translated, base := 0, 0;
    while base < |cues|
      invariant OnlyTranslated(talks, cues, out, touched, upTo) && translated == |touched|
      invariant TalksInOrder(talks, cues) && gateway.log == old(gateway.log) + Exchanges(talks)
      invariant base == |talks| * BATCH && upTo == (if base < |cues| then base else |cues|)
    {
      var stop := gateway.ShouldCancel();
      if stop { return None, out, talks, touched, upTo; }
      var count := |BatchOf(cues, base)|;
      ghost var before := gateway.log;
      var got, talk := AskBatch(gateway, cues, base, count);
      if got.None? { return None, out, talks, touched, upTo; }
      stop := gateway.ShouldCancel();
      if stop { return None, out, talks, touched, upTo; }
      ThisBatch(talk, cues, |talks|, base);
      TalksOn(talks, talk, cues);
      ExchangesOn(talks, talk);
      TalkOn(talks, talk, cues, out, touched, upTo);
      assert old(gateway.log) + Exchanges(talks) + talk == old(gateway.log) + (Exchanges(talks) + talk);
      talks := talks + [talk];
      var more;
      out, more, touched := FillBatch(cues, out, base, count, got.value, talks, touched);
      translated := translated + more;
      upTo := base + count;
      base := base + BATCH;
    }
    r := Some(translated);
  }

  lemma NothingTouched(cues: seq<Cue>)
    ensures OnlyTranslated([], cues, cues, {}, 0) && TalksInOrder([], cues) && Exchanges([]) == []
  {}
}

/**
 * The LSP client's edits: what two texts do not have in common at either end,
 * cut where no CRLF and no surrogate pair is torn, addressed by line and by
 * UTF-16 unit.
 */
module LspEdits {
  import opened Options

  type Unit = u: nat | u < 0x1_0000
  type Text = seq<Unit>

  const CR: Unit := 13
  const LF: Unit := 10

  datatype Position = Position(line: nat, character: nat)
  datatype Span = Span(start: Position, end: Position)
  /** A change without a range replaces the whole text. */
  datatype Change = Change(range: Option<Span>, text: Text)

  // ---- What a change means to its receiver ----

  /**
   * Where line `line` of the rest of `text` from `at` begins, lines ending at LF; the end of the
   * text when there is no such line.
   */
  function LineStart(text: Text, line: nat, at: nat): nat
    requires at <= |text|
    decreases |text| - at
  {
    if line == 0 || at == |text| then at
    else LineStart(text, if text[at] == 0x0a then line - 1 else line, at + 1)
  }

  function OffsetAt(text: Text, p: Position): nat {
    LineStart(text, p.line, 0) + p.character
  }

  /** The text after a change, if its range lies in the text. */
  function Apply(text: Text, change: Change): Option<Text> {
    match change.range
    case None => Some(change.text)
    case Some(span) =>
      var from, to := OffsetAt(text, span.start), OffsetAt(text, span.end);
      if from <= to <= |text| then Some(text[..from] + change.text + text[to..]) else None
  }

  // ---- Positions ----

  function IndexOf(text: Text, u: Unit, from: nat): (i: int)
    ensures i == -1 || (from <= i < |text| && text[i] == u)
    ensures forall j | from <= j < if i == -1 then |text| else i :: text[j] != u
    decreases |text| - from
  {
    if from >= |text| then -1 else if text[from] == u then from else IndexOf(text, u, from + 1)
  }

  function LastIndexOf(text: Text, u: Unit, from: nat): (i: int)
    requires from < |text|
    ensures i == -1 || (0 <= i <= from && text[i] == u)
    ensures forall j | i < j <= from :: text[j] != u
  {
    if text[from] == u then from else if from == 0 then -1 else LastIndexOf(text, u, from - 1)
  }

  /** How many LFs `text` has from `from` up to `to`. */
  function Lines(text: Text, from: nat, to: nat): nat
    requires from <= to <= |text|
    decreases |text| - from
  {
    if from == to then 0 else (if text[from] == LF then 1 else 0) + Lines(text, from + 1, to)
  }

  lemma {:induction false} LinesJoin(text: Text, a: nat, b: nat, c: nat)
    requires a <= b <= c <= |text|
    ensures Lines(text, a, c) == Lines(text, a, b) + Lines(text, b, c)
    decreases b - a
  {
    if a < b {
      LinesJoin(text, a + 1, b, c);
    }
  }

  lemma {:induction false} NoLines(text: Text, a: nat, b: nat)
    requires a <= b <= |text| && forall j | a <= j < b :: text[j] != LF
    ensures Lines(text, a, b) == 0
    decreases b - a
  {
    if a < b {
      NoLines(text, a + 1, b);
    }
  }

  /** The line an offset is on begins where the receiver looks for it. */
  lemma {:induction false} LineStartIs(text: Text, begin: nat, offset: nat, at: nat)
    requires at <= begin <= offset <= |text|
    requires begin == at || text[begin - 1] == LF
    requires forall j | begin <= j < offset :: text[j] != LF
    ensures LineStart(text, Lines(text, at, offset), at) == begin
    decreases begin - at
  {
    if begin == at {
      NoLines(text, at, offset);
    } else {
      LinesJoin(text, at, begin, offset);
      LinesJoin(text, at, begin - 1, begin);
      assert Lines(text, begin - 1, begin) == 1;
      if begin > at + 1 || text[at] == LF {
        LineStartIs(text, begin, offset, at + 1);
      }
    }
  }

  /** A position of an offset converts back to it, and stays on its line. */
  method PositionOf(text: Text, offset: nat) returns (p: Position)
    requires offset <= |text|
    ensures OffsetAt(text, p) == offset
    ensures p.line == Lines(text, 0, offset)
    ensures p.character <= offset && forall j | offset - p.character <= j < offset :: text[j] != LF
  {
    var begin := if offset == 0 then 0 else LastIndexOf(text, LF, offset - 1) + 1;
    var line := 0;
    var i := IndexOf(text, LF, 0);
    NoLines(text, 0, if i == -1 || i > offset then offset else i);
    while i != -1 && i < offset
      invariant i == -1 || (0 <= i < |text| && text[i] == LF)
      invariant line == Lines(text, 0, if i == -1 || i > offset then offset else i)
      decreases if i == -1 then 0 else |text| - i
    {
      var next := IndexOf(text, LF, i + 1);
      var to := if next == -1 || next > offset then offset else next;
      LinesJoin(text, 0, i, to);
      NoLines(text, i + 1, to);
      line := line + 1;
      i := next;
    }
    p := Position(line, offset - begin);
    LineStartIs(text, begin, offset, 0);
  }

  // ---- The edit ----

  /** Whether a cut before `i` parts a CRLF or follows a high surrogate. */
  predicate Splits(text: Text, i: int) {
    0 < i < |text| && ((text[i - 1] == CR && text[i] == LF) || 0xd800 <= text[i - 1] <= 0xdbff)
  }

  /** `text[..i]` ends inside a line end of CR and LF, or with the first half of a surrogate pair. */
  ghost predicate Torn(text: Text, i: nat) {
    i < |text| && text[..i] != [] && ((text[i - 1] == 0x0d && text[i] == 0x0a) || text[i - 1] / 0x400 == 0x36)
  }

  lemma TornIsSplit(text: Text, i: nat)
    ensures Torn(text, i) <==> Splits(text, i)
  {
  }

  /** A cut both texts agree up to, and neither is torn at. */
  ghost predicate Head(before: Text, after: Text, start: nat) {
    && start <= |before| && start <= |after| && before[..start] == after[..start]
    && !Torn(before, start) && !Torn(after, start)
  }

  predicate SameTail(before: Text, after: Text, suffix: nat)
    requires suffix <= |before| && suffix <= |after|
  {
    before[|before| - suffix..] == after[|after| - suffix..]
  }

  lemma HeadAgrees(before: Text, after: Text, start: nat, i: nat)
    requires Head(before, after, start) && i < start
    ensures before[i] == after[i]
  {
    assert before[i] == before[..start][i];
  }

  lemma TailAgrees(before: Text, after: Text, suffix: nat, i: nat)
    requires Tail(before, after, suffix) && i < suffix
    ensures before[|before| - 1 - i] == after[|after| - 1 - i]
  {
    assert before[|before| - 1 - i] == before[|before| - suffix..][suffix - 1 - i];
  }

  lemma NoTail(before: Text, after: Text)
    ensures SameTail(before, after, 0)
  {
  }

  lemma LongerTail(before: Text, after: Text, suffix: nat)
    requires suffix < |before| && suffix < |after| && SameTail(before, after, suffix)
    requires before[|before| - 1 - suffix] == after[|after| - 1 - suffix]
    ensures SameTail(before, after, suffix + 1)
  {
    assert before[|before| - suffix - 1..] == [before[|before| - 1 - suffix]] + before[|before| - suffix..];
    assert after[|after| - suffix - 1..] == [after[|after| - 1 - suffix]] + after[|after| - suffix..];
  }

  lemma ShorterTail(before: Text, after: Text, suffix: nat)
    requires 0 < suffix <= |before| && suffix <= |after| && SameTail(before, after, suffix)
    ensures SameTail(before, after, suffix - 1)
  {
    assert before[|before| - (suffix - 1)..] == before[|before| - suffix..][1..];
    assert after[|after| - (suffix - 1)..] == after[|after| - suffix..][1..];
  }

  /** As many units both texts end in, and neither is torn before. */
  ghost predicate Tail(before: Text, after: Text, suffix: nat) {
    && suffix <= |before| && suffix <= |after| && SameTail(before, after, suffix)
    && !Torn(before, |before| - suffix) && !Torn(after, |after| - suffix)
  }

  method CommonStart(before: Text, after: Text) returns (start: nat)
    ensures Head(before, after, start)
    ensures forall s: nat | Head(before, after, s) :: s <= start
  {
    var limit := if |before| < |after| then |before| else |after|;
    start := 0;
    while start < limit && before[start] == after[start]
      invariant start <= limit && before[..start] == after[..start]
    {
      start := start + 1;
    }
    forall s: nat | Head(before, after, s) ensures s <= start {
      if start < s {
        HeadAgrees(before, after, s, start);
      }
    }
    ghost var most := start;
    while Splits(before, start) || Splits(after, start)
      invariant start <= most && before[..start] == after[..start]
      invariant forall s: nat | Head(before, after, s) :: s <= start
      decreases start
    {
      forall s: nat | Head(before, after, s) ensures s <= start - 1 {
      }
      start := start - 1;
    }
  }

  method CommonSuffix(before: Text, after: Text, start: nat) returns (suffix: nat)
    requires start <= |before| && start <= |after|
    ensures Tail(before, after, suffix) && suffix <= |before| - start && suffix <= |after| - start
    ensures forall s: nat | Tail(before, after, s) && s <= |before| - start && s <= |after| - start :: s <= suffix
  {
    hide SameTail, Splits, Torn;
    var limit := if |before| < |after| then |before| else |after|;
    suffix := 0;
    NoTail(before, after);
    while suffix < limit - start && before[|before| - 1 - suffix] == after[|after| - 1 - suffix]
      invariant suffix <= limit - start && SameTail(before, after, suffix)
    {
      LongerTail(before, after, suffix);
      suffix := suffix + 1;
    }
    forall s: nat | Tail(before, after, s) && s <= limit - start ensures s <= suffix {
      if suffix < s {
        TailAgrees(before, after, s, suffix);
      }
    }
    while Splits(before, |before| - suffix) || Splits(after, |after| - suffix)
      invariant suffix <= limit - start && SameTail(before, after, suffix)
      invariant forall s: nat | Tail(before, after, s) && s <= limit - start :: s <= suffix
      decreases suffix
    {
      TornIsSplit(before, |before| - suffix);
      TornIsSplit(after, |after| - suffix);
      NotAtTheEnd(before, after, suffix);
      ShorterTail(before, after, suffix);
      suffix := suffix - 1;
    }
    TornIsSplit(before, |before| - suffix);
    TornIsSplit(after, |after| - suffix);
  }

  lemma NotAtTheEnd(before: Text, after: Text, suffix: nat)
    requires suffix <= |before| && suffix <= |after|
    requires Splits(before, |before| - suffix) || Splits(after, |after| - suffix)
    ensures suffix > 0
  {
  }

  /** The offsets of an edit: nothing but the units between them differs. */
  ghost predicate Edits(before: Text, after: Text, start: nat, suffix: nat, text: Text) {
    && Head(before, after, start) && Tail(before, after, suffix)
    && start <= |before| - suffix && start <= |after| - suffix
    && text == after[start..|after| - suffix]
  }

  /**
   * One change that takes `before` to `after`: its range lies in the text in
   * order, splits nothing in either text, and no range from an earlier or
   * equal cut that reaches as far back would be shorter.
   */
  method ContentChanges(before: Text, after: Text, incremental: bool) returns (change: Change)
    ensures Apply(before, change) == Some(after)
    ensures change.range.Some? <==> incremental
    ensures incremental ==>
              var from, to := OffsetAt(before, change.range.value.start), OffsetAt(before, change.range.value.end);
              && from <= to <= |before| && Edits(before, after, from, |before| - to, change.text)
              && (forall s: nat | Head(before, after, s) :: s <= from)
              && (forall s: nat | Tail(before, after, s) && s <= |before| - from && s <= |after| - from
                  :: s <= |before| - to)
  {
    if !incremental {
      return Change(None, after);
    }
    var start := CommonStart(before, after);
    var suffix := CommonSuffix(before, after, start);
    var from := PositionOf(before, start);
    var to := PositionOf(before, |before| - suffix);
    change := Change(Some(Span(from, to)), after[start..|after| - suffix]);
    assert after == after[..start] + after[start..|after| - suffix] + after[|after| - suffix..];
  }
}

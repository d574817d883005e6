/** Scan ranges typed as text (frontend workflows-lib validationUtils.ts and ScanRangeInput.tsx). */
module ScanRanges {
  import opened Decimal
  import opened Sorting
  import opened Text
  import opened Wrappers

  // ---------------------------------------------------------------- splitting the text

  /** White space as \s and trim mean it. */
  predicate IsSpace(c: char) {
    var code := c as int;
    || 0x09 <= code <= 0x0D || code == 0x20 || code == 0xA0 || code == 0x1680 || 0x2000 <= code <= 0x200A
    || code == 0x2028 || code == 0x2029 || code == 0x202F || code == 0x205F || code == 0x3000 || code == 0xFEFF
  }

  predicate IsSeparator(c: char) {
    IsSpace(c) || c == ','
  }

  predicate IsInner(c: char) {
    !IsSeparator(c)
  }

  predicate IsBracket(c: char) {
    c == '[' || c == ']'
  }

  /** The text without square brackets. */
  function Cleaned(s: string): string {
    if s == "" then "" else (if IsBracket(s[0]) then "" else [s[0]]) + Cleaned(s[1..])
  }

  lemma DropAt(s: string, a: nat, i: nat)
    requires a <= i < |s|
    ensures s[a..][i - a] == s[i]
  {
  }

  /** Where the text goes on behind its first piece and the separators that follow it. */
  function Behind(s: string): (k: nat)
    requires Run(s, IsInner) < |s|
    ensures Run(s, IsInner) < k <= |s| && (forall i :: Run(s, IsInner) <= i < k ==> IsSeparator(s[i]))
    ensures k < |s| ==> !IsSeparator(s[k])
  {
    var a := Run(s, IsInner);
    assert forall i :: a <= i < |s| ==> s[a..][i - a] == s[i] by {
      forall i | a <= i < |s| { DropAt(s, a, i); }
    }
    assert s[a..][a - a] == s[a];
    a + Run(s[a..], IsSeparator)
  }

  /** The pieces between runs of separators. */
  function Pieces(s: string): seq<string>
    decreases |s|
  {
    var a := Run(s, IsInner);
    if a == |s| then [s] else [s[..a]] + Pieces(s[Behind(s)..])
  }

  function NonEmpty(pieces: seq<string>): seq<string> {
    if pieces == [] then [] else (if pieces[0] == "" then [] else [pieces[0]]) + NonEmpty(pieces[1..])
  }

  function TrimEnd(s: string): string {
    if s != "" && IsSpace(s[|s| - 1]) then TrimEnd(s[..|s| - 1]) else s
  }

  function Trim(s: string): string {
    TrimEnd(s[Run(s, IsSpace)..])
  }

  function Trimmed(pieces: seq<string>): seq<string> {
    if pieces == [] then [] else [Trim(pieces[0])] + Trimmed(pieces[1..])
  }

  /** The parts that are looked at. */
  function Parts(input: string): seq<string> {
    NonEmpty(Trimmed(Pieces(Cleaned(input))))
  }

  lemma {:induction false} PiecesHoldNoSeparator(s: string)
    ensures forall piece, c :: piece in Pieces(s) && c in piece ==> !IsSeparator(c)
    decreases |s|
  {
    var a := Run(s, IsInner);
    if a < |s| { PiecesHoldNoSeparator(s[Behind(s)..]); }
  }

  lemma {:induction false} TrimmingChangesNothing(pieces: seq<string>)
    requires forall piece, c :: piece in pieces && c in piece ==> !IsSeparator(c)
    ensures Trimmed(pieces) == pieces
  {
    if pieces != [] {
      var first := pieces[0];
      assert first in pieces;
      assert first != "" ==> first[0] in first && first[|first| - 1] in first;
      assert first[0..] == first;
      TrimmingChangesNothing(pieces[1..]);
    }
  }

  lemma {:induction false} PartsAreNonEmptyPieces(input: string)
    ensures Parts(input) == NonEmpty(Pieces(Cleaned(input)))
  {
    PiecesHoldNoSeparator(Cleaned(input));
    TrimmingChangesNothing(Pieces(Cleaned(input)));
  }

  // ---------------------------------------------------------------- what the parts are

  datatype Span = Span(start: nat, end: nat)

  /** A stretch without separators that cannot be made longer. */
  predicate IsRun(s: string, r: Span) {
    && r.start < r.end <= |s| && (forall i :: r.start <= i < r.end ==> !IsSeparator(s[i]))
    && (r.start == 0 || IsSeparator(s[r.start - 1])) && (r.end == |s| || IsSeparator(s[r.end]))
  }

  predicate SpanHolds(s: string, r: Span, part: string) {
    IsRun(s, r) && part == s[r.start..r.end]
  }

  predicate InOrder(spans: seq<Span>) {
    forall k, l :: 0 <= k < l < |spans| ==> spans[k].end < spans[l].start
  }

  /** The parts are the texts of all such stretches, in their order. */
  ghost predicate AreTheRuns(s: string, parts: seq<string>, spans: seq<Span>) {
    && |spans| == |parts| && InOrder(spans)
    && (forall k :: 0 <= k < |spans| ==> SpanHolds(s, spans[k], parts[k]))
    && (forall r :: IsRun(s, r) ==> r in spans)
  }

  function Shift(r: Span, offset: nat): Span {
    Span(r.start + offset, r.end + offset)
  }

  function Shifted(spans: seq<Span>, offset: nat): (r: seq<Span>)
    ensures |r| == |spans| && forall k :: 0 <= k < |spans| ==> r[k] == Shift(spans[k], offset)
  {
    if spans == [] then [] else [Shift(spans[0], offset)] + Shifted(spans[1..], offset)
  }

  /** Behind a separator, the stretches of the rest are those of the whole. */
  lemma {:induction false} RunsBehind(s: string, k: nat, r: Span)
    requires 0 < k <= |s| && IsSeparator(s[k - 1])
    ensures IsRun(s, Shift(r, k)) <==> IsRun(s[k..], r)
  {
    var rest, t := s[k..], Shift(r, k);
    if r.end <= |rest| {
      assert forall i :: 0 <= i < |rest| ==> rest[i] == s[i + k];
      if IsRun(rest, r) {
        assert forall i :: t.start <= i < t.end ==> s[i] == rest[i - k];
      }
    }
  }

  /** In front of the rest there is one stretch, if the text does not begin with a separator. */
  lemma {:induction false} RunInFront(s: string, a: nat, k: nat, r: Span)
    requires a < k <= |s| && (forall i :: 0 <= i < a ==> !IsSeparator(s[i]))
    requires forall i :: a <= i < k ==> IsSeparator(s[i])
    requires r.start < k
    ensures IsRun(s, r) <==> a > 0 && r == Span(0, a)
  {
    assert IsSeparator(s[a]);
    if IsRun(s, r) {
      assert !IsSeparator(s[r.start]);
    }
  }

  /** The stretches that begin at some place or later, in their order, and their texts. */
  ghost predicate AreTheRunsFrom(s: string, from: nat, parts: seq<string>, spans: seq<Span>) {
    && |spans| == |parts| && InOrder(spans)
    && (forall k :: 0 <= k < |spans| ==> SpanHolds(s, spans[k], parts[k]) && spans[k].start >= from)
    && (forall r :: IsRun(s, r) && r.start >= from ==> r in spans)
  }

  lemma {:induction false} RestHolds(s: string, k: nat, r: Span, part: string)
    requires 0 < k <= |s| && IsSeparator(s[k - 1]) && SpanHolds(s[k..], r, part)
    ensures SpanHolds(s, Shift(r, k), part)
  {
    RunsBehind(s, k, r);
    assert s[k..][r.start..r.end] == s[r.start + k..r.end + k];
  }

  lemma {:induction false} RestFinds(s: string, k: nat, later: seq<Span>, r: Span)
    requires 0 < k <= |s| && IsSeparator(s[k - 1]) && IsRun(s, r) && r.start >= k
    requires forall back :: IsRun(s[k..], back) ==> back in later
    ensures r in Shifted(later, k)
  {
    var back := Span(r.start - k, r.end - k);
    assert Shift(back, k) == r;
    RunsBehind(s, k, back);
    var j :| 0 <= j < |later| && later[j] == back;
    assert Shifted(later, k)[j] == r;
  }

  lemma ShiftedInOrder(spans: seq<Span>, offset: nat)
    requires InOrder(spans)
    ensures InOrder(Shifted(spans, offset))
  {
  }

  lemma {:induction false} RunsOfTheRest(s: string, k: nat, parts: seq<string>, later: seq<Span>)
    requires 0 < k <= |s| && IsSeparator(s[k - 1]) && AreTheRuns(s[k..], parts, later)
    ensures AreTheRunsFrom(s, k, parts, Shifted(later, k))
  {
    var spans := Shifted(later, k);
    ShiftedInOrder(later, k);
    forall j | 0 <= j < |spans|
      ensures SpanHolds(s, spans[j], parts[j]) && spans[j].start >= k
    {
      RestHolds(s, k, later[j], parts[j]);
    }
    forall r | IsRun(s, r) && r.start >= k
      ensures r in spans
    {
      RestFinds(s, k, later, r);
    }
  }

  /** Behind separators only, the stretches of the rest are all there are. */
  lemma {:induction false} NoRunInFront(s: string, k: nat, parts: seq<string>, later: seq<Span>)
    requires 0 < k <= |s| && (forall i :: 0 <= i < k ==> IsSeparator(s[i]))
    requires AreTheRunsFrom(s, k, parts, later)
    ensures AreTheRuns(s, parts, later)
  {
    forall r | IsRun(s, r)
      ensures r in later
    {
      if r.start < k { RunInFront(s, 0, k, r); }
    }
  }

  lemma {:induction false} OneMoreInOrder(first: Span, later: seq<Span>)
    requires InOrder(later) && forall j :: 0 <= j < |later| ==> later[j].start > first.end
    ensures InOrder([first] + later)
  {
    var spans := [first] + later;
    forall k, l | 0 <= k < l < |spans|
      ensures spans[k].end < spans[l].start
    {
      assert spans[l] == later[l - 1];
      if k > 0 { assert spans[k] == later[k - 1]; }
    }
  }

  lemma {:induction false} OneMoreHolds(s: string, a: nat, k: nat, parts: seq<string>, later: seq<Span>, j: nat)
    requires 0 < a < k <= |s| && (forall i :: 0 <= i < a ==> !IsSeparator(s[i])) && IsSeparator(s[a])
    requires |later| == |parts| && forall l :: 0 <= l < |later| ==> SpanHolds(s, later[l], parts[l])
    requires j <= |later|
    ensures SpanHolds(s, ([Span(0, a)] + later)[j], ([s[..a]] + parts)[j])
  {
    if j == 0 {
      assert s[0..a] == s[..a] && IsRun(s, Span(0, a));
    } else {
      assert SpanHolds(s, later[j - 1], parts[j - 1]);
    }
  }

  /** Behind a stretch and separators, there is one more. */
  lemma {:induction false} OneRunInFront(s: string, a: nat, k: nat, parts: seq<string>, later: seq<Span>)
    requires 0 < a < k <= |s| && (forall i :: 0 <= i < a ==> !IsSeparator(s[i]))
    requires forall i :: a <= i < k ==> IsSeparator(s[i])
    requires AreTheRunsFrom(s, k, parts, later)
    ensures AreTheRuns(s, [s[..a]] + parts, [Span(0, a)] + later)
  {
    var spans := [Span(0, a)] + later;
    OneMoreInOrder(Span(0, a), later);
    forall j | 0 <= j < |spans|
      ensures SpanHolds(s, spans[j], ([s[..a]] + parts)[j])
    {
      OneMoreHolds(s, a, k, parts, later, j);
    }
    forall r | IsRun(s, r)
      ensures r in spans
    {
      if r.start < k {
        RunInFront(s, a, k, r);
        assert r == spans[0];
      } else {
        assert r in later;
      }
    }
  }

  lemma {:induction false} OneRun(s: string)
    requires forall i :: 0 <= i < |s| ==> !IsSeparator(s[i])
    ensures AreTheRuns(s, NonEmpty([s]), if s == "" then [] else [Span(0, |s|)])
  {
    assert [s][1..] == [] && s[0..|s|] == s;
    assert NonEmpty([s]) == if s == "" then [] else [s];
    forall r | IsRun(s, r)
      ensures r == Span(0, |s|)
    {
    }
    assert s != "" ==> [Span(0, |s|)][0] == Span(0, |s|) && SpanHolds(s, Span(0, |s|), s);
  }

  lemma NonEmptyFront(first: string, rest: seq<string>)
    ensures NonEmpty([first] + rest) == (if first == "" then [] else [first]) + NonEmpty(rest)
  {
    assert ([first] + rest)[1..] == rest;
  }

  lemma {:induction false} PiecesAreTheRuns(s: string) returns (spans: seq<Span>)
    ensures AreTheRuns(s, NonEmpty(Pieces(s)), spans)
    decreases |s|
  {
    var a := Run(s, IsInner);
    if a == |s| {
      OneRun(s);
      spans := if s == "" then [] else [Span(0, |s|)];
    } else {
      var k := Behind(s);
      var later := PiecesAreTheRuns(s[k..]);
      var parts := NonEmpty(Pieces(s[k..]));
      NonEmptyFront(s[..a], Pieces(s[k..]));
      RunsOfTheRest(s, k, parts, later);
      spans := Shifted(later, k);
      if a == 0 {
        assert [] + parts == parts;
        NoRunInFront(s, k, parts, spans);
      } else {
        OneRunInFront(s, a, k, parts, spans);
        spans := [Span(0, a)] + spans;
      }
    }
  }

  lemma {:induction false} OrderedIsUnique(p: seq<Span>, q: seq<Span>)
    requires InOrder(p) && InOrder(q) && (forall r :: r in p <==> r in q)
    requires forall r :: r in p ==> r.start < r.end
    ensures p == q
  {
    if p != [] { assert p[0] in p; }
    if q != [] { assert q[0] in q; }
    if p != [] && q != [] {
      assert p[0] in q && q[0] in p;
      assert p[0] == q[0];
      assert p == [p[0]] + p[1..] && q == [q[0]] + q[1..];
      forall r
        ensures r in p[1..] <==> r in q[1..]
      {
        assert r in p <==> r in q;
      }
      OrderedIsUnique(p[1..], q[1..]);
    }
  }

  lemma {:induction false} CleanedAround(front: string, bracket: char, rest: string)
    requires bracket == '[' || bracket == ']'
    ensures Cleaned(front + [bracket] + rest) == Cleaned(front + rest)
  {
    var s := front + [bracket] + rest;
    if front == "" {
      assert s[1..] == rest == front + rest;
    } else {
      CleanedAround(front[1..], bracket, rest);
      assert s[1..] == front[1..] + [bracket] + rest && (front + rest)[1..] == front[1..] + rest;
    }
  }

  lemma {:induction false} CleanedPlain(s: string)
    requires '[' !in s && ']' !in s
    ensures Cleaned(s) == s
  {
    if s != "" {
      assert s[0] in s && s == [s[0]] + s[1..];
      CleanedPlain(s[1..]);
    }
  }

  /** Square brackets make no difference anywhere in the text, and a text without them is read as it is. */
  lemma {:induction false} BracketsAreIgnored(front: string, bracket: char, rest: string)
    requires bracket == '[' || bracket == ']'
    ensures Parts(front + [bracket] + rest) == Parts(front + rest)
    ensures '[' !in front + rest && ']' !in front + rest ==> Cleaned(front + [bracket] + rest) == front + rest
  {
    CleanedAround(front, bracket, rest);
    if '[' !in front + rest && ']' !in front + rest { CleanedPlain(front + rest); }
  }

  /** The parts are exactly the longest stretches of the cleaned text without white space and commas, in order. */
  lemma {:induction false} PartsExactly(input: string, parts: seq<string>)
    ensures parts == Parts(input) <==> exists spans :: AreTheRuns(Cleaned(input), parts, spans)
  {
    var s := Cleaned(input);
    PartsAreNonEmptyPieces(input);
    var spans := PiecesAreTheRuns(s);
    forall other | AreTheRuns(s, parts, other)
      ensures parts == Parts(input)
    {
      OrderedIsUnique(spans, other);
    }
  }

  // ---------------------------------------------------------------- reading the parts

  datatype ScanError = InvalidRange | NotScans

  /** \d+-\d+ */
  predicate IsRangeText(part: string) {
    var a := Run(part, IsDigit);
    0 < a < |part| && part[a] == '-' && IsNumeral(part[a + 1..])
  }

  function UpTo(start: nat, end: int): (r: seq<nat>)
    ensures forall n :: n in r <==> start <= n <= end
    decreases end - start
  {
    if start > end then [] else UpTo(start, end - 1) + [end]
  }

  /** The numbers of one part. */
  function ReadPart(part: string): Result<seq<nat>, ScanError> {
    if IsNumeral(part) then Ok([Value(part)])
    else if IsRangeText(part) then
      var a := Run(part, IsDigit);
      var start, end := Value(part[..a]), Value(part[a + 1..]);
      if start >= end then Err(InvalidRange) else Ok(UpTo(start, end))
    else Err(NotScans)
  }

  /** Adding to a Set: what is there already stays where it is. */
  function AddAll(result: seq<nat>, numbers: seq<nat>): seq<nat> {
    if numbers == [] then result
    else
      var front, last := AddAll(result, numbers[..|numbers| - 1]), numbers[|numbers| - 1];
      if last in front then front else front + [last]
  }

  function Added(result: seq<nat>, numbers: Result<seq<nat>, ScanError>): Result<seq<nat>, ScanError> {
    match numbers
    case Err(error) => Err(error)
    case Ok(added) => Ok(AddAll(result, added))
  }

  /** The Set after the parts, or the error of the first part that cannot be read. */
  function ReadParts(parts: seq<string>): Result<seq<nat>, ScanError> {
    if parts == [] then Ok([])
    else
      match ReadParts(parts[..|parts| - 1])
      case Err(error) => Err(error)
      case Ok(result) => Added(result, ReadPart(parts[|parts| - 1]))
  }

  function Parsed(input: string): Result<seq<nat>, ScanError> {
    match ReadParts(Parts(input))
    case Err(error) => Err(error)
    case Ok(result) => Ok(Sort(result))
  }

  /** parseExcludedScans. */
  method ParseExcludedScans(input: string) returns (r: Result<seq<nat>, ScanError>)
    ensures r == Parsed(input)
  {
    var parts := Parts(input);
    var result: seq<nat> := [];
    for i := 0 to |parts|
      invariant ReadParts(parts[..i]) == Ok(result)
    {
      OnePartMore(parts, i, result);
      var added := AddPart(result, parts[i]);
      if added.Err? {
        ErrorStays(parts, i + 1, added.error);
        return Err(added.error);
      }
      result := added.value;
    }
    assert parts[..|parts|] == parts;
    r := Ok(Sort(result));
  }

  /** The body of its loop. */
  method AddPart(before: seq<nat>, part: string) returns (r: Result<seq<nat>, ScanError>)
    ensures r == Added(before, ReadPart(part))
  {
    if IsNumeral(part) {
      AddOne(before, Value(part));
      r := Ok(if Value(part) in before then before else before + [Value(part)]);
    } else if IsRangeText(part) {
      var a := Run(part, IsDigit);
      var start, end := Value(part[..a]), Value(part[a + 1..]);
      if start >= end {
        return Err(InvalidRange);
      }
      var result := AddRange(before, start, end);
      r := Ok(result);
    } else {
      r := Err(NotScans);
    }
  }

  /** The loop that adds a range number by number. */
  method AddRange(before: seq<nat>, start: nat, end: nat) returns (result: seq<nat>)
    requires start < end
    ensures result == AddAll(before, UpTo(start, end))
  {
    result := before;
    for i := start to end + 1
      invariant result == AddAll(before, UpTo(start, i - 1))
    {
      AddOneMore(before, start, i);
      if i !in result {
        result := result + [i];
      }
    }
  }

  lemma AddOneMore(before: seq<nat>, start: nat, i: nat)
    requires start <= i
    ensures var front := AddAll(before, UpTo(start, i - 1));
            AddAll(before, UpTo(start, i)) == if i in front then front else front + [i]
  {
    var numbers := UpTo(start, i);
    assert numbers[..|numbers| - 1] == UpTo(start, i - 1);
  }

  lemma AddOne(result: seq<nat>, n: nat)
    ensures AddAll(result, [n]) == if n in result then result else result + [n]
  {
    assert [n][..0] == [];
  }

  lemma {:induction false} OnePartMore(parts: seq<string>, i: nat, result: seq<nat>)
    requires i < |parts| && ReadParts(parts[..i]) == Ok(result)
    ensures ReadParts(parts[..i + 1]) == Added(result, ReadPart(parts[i]))
  {
    assert parts[..i + 1][..i] == parts[..i];
  }

  lemma {:induction false} ErrorStays(parts: seq<string>, i: nat, error: ScanError)
    requires i <= |parts| && ReadParts(parts[..i]) == Err(error)
    ensures ReadParts(parts) == Err(error)
  {
    if i == |parts| {
      assert parts[..i] == parts;
    } else {
      assert parts[..|parts| - 1][..i] == parts[..i];
      ErrorStays(parts[..|parts| - 1], i, error);
    }
  }

  // ---------------------------------------------------------------- what parsing yields

  /** a-b, with numerals on both sides. */
  ghost predicate IsRange(part: string, a: string, b: string) {
    part == a + ("-" + b) && IsNumeral(a) && IsNumeral(b)
  }

  /** The number is the part, or lies in the strictly increasing range that the part writes. */
  ghost predicate Denotes(part: string, n: nat) {
    || (IsNumeral(part) && n == Value(part))
    || exists a, b :: IsRange(part, a, b) && Value(a) < Value(b) && Value(a) <= n <= Value(b)
  }

  ghost predicate IsValid(part: string) {
    IsNumeral(part) || exists a, b :: IsRange(part, a, b) && Value(a) < Value(b)
  }

  predicate IsIncreasing(s: seq<nat>) {
    forall i, j :: 0 <= i < j < |s| ==> s[i] < s[j]
  }

  /** A range text is read in one way. */
  lemma {:induction false} RangeTextExactly(part: string, a: string, b: string)
    ensures var k := Run(part, IsDigit);
            IsRange(part, a, b) <==> IsRangeText(part) && a == part[..k] && b == part[k + 1..]
    ensures IsRange(part, a, b) ==> !IsNumeral(part)
  {
    var k := Run(part, IsDigit);
    if IsRange(part, a, b) {
      RunOver(a, "-" + b, IsDigit);
      assert part[k] == '-' && part[k + 1..] == b;
    }
    if IsRangeText(part) && a == part[..k] && b == part[k + 1..] {
      assert part == a + ("-" + b);
    }
  }

  /** A part is read exactly if it is valid, and yields exactly the numbers it denotes. */
  lemma {:induction false} ReadPartExactly(part: string)
    ensures ReadPart(part).Ok? <==> IsValid(part)
    ensures ReadPart(part).Ok? ==> forall n :: n in ReadPart(part).value <==> Denotes(part, n)
    ensures ReadPart(part) == Err(InvalidRange) <==> !IsValid(part) && exists a, b :: IsRange(part, a, b)
  {
    var k := Run(part, IsDigit);
    forall a, b
      ensures IsRange(part, a, b) ==> IsRangeText(part) && a == part[..k] && b == part[k + 1..] && !IsNumeral(part)
    {
      RangeTextExactly(part, a, b);
    }
    if IsRangeText(part) {
      RangeTextExactly(part, part[..k], part[k + 1..]);
    }
  }

  predicate NoRepeats(s: seq<nat>) {
    forall i, j :: 0 <= i < j < |s| ==> s[i] != s[j]
  }

  lemma {:induction false} AddAllExactly(result: seq<nat>, numbers: seq<nat>)
    requires NoRepeats(result)
    ensures NoRepeats(AddAll(result, numbers))
    ensures forall n :: n in AddAll(result, numbers) <==> n in result || n in numbers
  {
    if numbers != [] {
      var front, last := numbers[..|numbers| - 1], numbers[|numbers| - 1];
      assert numbers == front + [last];
      AddAllExactly(result, front);
    }
  }

  ghost predicate SomePartDenotes(parts: seq<string>, n: nat) {
    exists part :: part in parts && Denotes(part, n)
  }

  lemma {:induction false} ReadPartsExactly(parts: seq<string>)
    ensures ReadParts(parts).Ok? <==> forall part :: part in parts ==> IsValid(part)
    ensures ReadParts(parts).Ok? ==> NoRepeats(ReadParts(parts).value)
                                     && forall n :: n in ReadParts(parts).value <==> SomePartDenotes(parts, n)
  {
    if parts != [] {
      var front, last := parts[..|parts| - 1], parts[|parts| - 1];
      assert parts == front + [last];
      ReadPartsExactly(front);
      ReadPartExactly(last);
      if ReadParts(parts).Ok? {
        AddAllExactly(ReadParts(front).value, ReadPart(last).value);
      }
    }
  }

  lemma {:induction false} SortedWithoutRepeats(s: seq<nat>)
    requires NoRepeats(s)
    ensures IsIncreasing(Sort(s)) && forall n :: n in Sort(s) <==> n in s
  {
    var r := Sort(s);
    forall n: nat
      ensures n in r <==> n in s
      ensures multiset(r)[n] <= 1
    {
      assert n in r <==> n in multiset(r);
      assert n in s <==> n in multiset(s);
      CountedOnce(s, n);
    }
    forall i, j | 0 <= i < j < |r|
      ensures r[i] < r[j]
    {
      if r[i] == r[j] { RepeatIsCounted(r, i, j); }
    }
  }

  lemma {:induction false} RepeatIsCounted(s: seq<nat>, i: nat, j: nat)
    requires i < j < |s| && s[i] == s[j]
    ensures multiset(s)[s[i]] >= 2
  {
    assert s == s[..i] + [s[i]] + s[i + 1..j] + [s[j]] + s[j + 1..];
  }

  lemma {:induction false} CountedOnce(s: seq<nat>, n: nat)
    requires NoRepeats(s)
    ensures multiset(s)[n] <= 1
  {
    if s != [] {
      assert s == [s[0]] + s[1..];
      CountedOnce(s[1..], n);
      assert n in s[1..] <==> n in multiset(s[1..]);
    }
  }

  /** Parsing succeeds exactly if every part is a number or a strictly increasing range, and yields exactly the
      numbers denoted, in strictly increasing order. */
  lemma {:induction false} ParsedExactly(input: string)
    ensures Parsed(input).Ok? <==> forall part :: part in Parts(input) ==> IsValid(part)
    ensures Parsed(input).Ok? ==> IsIncreasing(Parsed(input).value)
                                  && forall n :: n in Parsed(input).value <==> SomePartDenotes(Parts(input), n)
  {
    var parts := Parts(input);
    ReadPartsExactly(parts);
    if ReadParts(parts).Ok? {
      SortedWithoutRepeats(ReadParts(parts).value);
    }
  }

  /** All parts before this one are valid, and it is not. */
  ghost predicate IsFirstInvalid(parts: seq<string>, k: nat) {
    k < |parts| && !IsValid(parts[k]) && forall j :: 0 <= j < k ==> IsValid(parts[j])
  }

  /** The error is told by the first invalid part: a range that does not increase, or neither number nor range. */
  lemma {:induction false} ErrorExactly(input: string, k: nat)
    requires IsFirstInvalid(Parts(input), k)
    ensures Parsed(input).Err?
    ensures Parsed(input).error == InvalidRange <==> exists a, b :: IsRange(Parts(input)[k], a, b)
  {
    var parts := Parts(input);
    ReadPartExactly(parts[k]);
    ReadPartsExactly(parts[..k]);
    OnePartMore(parts, k, ReadParts(parts[..k]).value);
    ErrorStays(parts, k + 1, ReadPart(parts[k]).error);
  }

  // ---------------------------------------------------------------- printing

  function Shown(numbers: seq<nat>): (texts: seq<string>)
    ensures |texts| == |numbers| && forall i :: 0 <= i < |numbers| ==> texts[i] == Show(numbers[i])
  {
    if numbers == [] then [] else [Show(numbers[0])] + Shown(numbers[1..])
  }

  /** numbers.join(", "). */
  function Printed(numbers: seq<nat>): string {
    if numbers == [] then "" else Join(Shown(numbers), ", ")
  }

  lemma {:induction false} CleanedFront(front: string, rest: string)
    requires forall i :: 0 <= i < |front| ==> !IsBracket(front[i])
    ensures Cleaned(front + rest) == front + Cleaned(rest)
  {
    if front == "" {
      assert front + rest == rest;
    } else {
      CleanedFront(front[1..], rest);
      assert (front + rest)[0] == front[0] && (front + rest)[1..] == front[1..] + rest;
      HeadJoins(front, Cleaned(rest));
    }
  }

  lemma HeadJoins(front: string, rest: string)
    requires front != ""
    ensures front + rest == [front[0]] + (front[1..] + rest)
  {
  }

  lemma {:induction false} CleanedPrinted(n: nat, rest: string)
    ensures Cleaned(Show(n) + ", " + rest) == Show(n) + (", " + Cleaned(rest))
  {
    var front := Show(n) + ", ";
    CleanedFront(front, rest);
    assert front + Cleaned(rest) == Show(n) + (", " + Cleaned(rest));
  }

  lemma {:induction false} PiecesOfFront(front: string, rest: string)
    requires IsNumeral(front) && (rest == "" || !IsSeparator(rest[0]))
    ensures Pieces(front + (", " + rest)) == [front] + Pieces(rest)
  {
    var s := front + (", " + rest);
    RunOver(front, ", " + rest, IsInner);
    assert s[|front| + 1] == ' ' && s[|front| + 2..] == rest;
    assert rest != "" ==> s[|front| + 2] == rest[0];
    assert Behind(s) == |front| + 2;
  }

  lemma {:induction false} PiecesOfNumeral(n: nat)
    ensures Cleaned(Show(n)) == Show(n) && Pieces(Show(n)) == [Show(n)]
  {
    var front := Show(n);
    CleanedFront(front, "");
    assert front + "" == front && Cleaned("") == "";
    RunOver(front, "", IsInner);
  }

  lemma {:induction false} PiecesOfPrinted(numbers: seq<nat>)
    requires numbers != []
    ensures Pieces(Cleaned(Printed(numbers))) == Shown(numbers)
    ensures Cleaned(Printed(numbers)) != "" && !IsSeparator(Cleaned(Printed(numbers))[0])
  {
    if |numbers| == 1 {
      PiecesOfNumeral(numbers[0]);
    } else {
      var front, rest := Show(numbers[0]), Printed(numbers[1..]);
      PiecesOfPrinted(numbers[1..]);
      assert Shown(numbers)[1..] == Shown(numbers[1..]);
      assert Printed(numbers) == front + ", " + rest;
      CleanedPrinted(numbers[0], rest);
      PiecesOfFront(front, Cleaned(rest));
    }
  }

  lemma {:induction false} NoneEmpty(pieces: seq<string>)
    requires forall i :: 0 <= i < |pieces| ==> pieces[i] != ""
    ensures NonEmpty(pieces) == pieces
  {
    if pieces != [] { NoneEmpty(pieces[1..]); }
  }

  /** There is one strictly increasing list of given numbers. */
  lemma {:induction false} IncreasingIsUnique(a: seq<nat>, b: seq<nat>)
    requires IsIncreasing(a) && IsIncreasing(b) && forall n :: n in a <==> n in b
    ensures a == b
  {
    if a != [] { assert a[0] in a; }
    if b != [] { assert b[0] in b; }
    if a != [] && b != [] {
      assert a[0] == b[0];
      forall n: nat
        ensures n in a[1..] <==> n in b[1..]
      {
        assert n in a <==> n in b;
        assert a == [a[0]] + a[1..] && b == [b[0]] + b[1..];
      }
      IncreasingIsUnique(a[1..], b[1..]);
    }
  }

  /** Parsing undoes printing exactly on the strictly increasing lists. */
  lemma {:induction false} ParsedOfPrinted(numbers: seq<nat>)
    ensures Parsed(Printed(numbers)) == Ok(numbers) <==> IsIncreasing(numbers)
  {
    ParsedExactly(Printed(numbers));
    if IsIncreasing(numbers) {
      PrintedDenotes(numbers);
      var parsed := Parsed(Printed(numbers));
      IncreasingIsUnique(parsed.value, numbers);
    }
  }

  lemma {:induction false} PrintedDenotes(numbers: seq<nat>)
    ensures forall part :: part in Parts(Printed(numbers)) ==> IsValid(part)
    ensures forall n :: SomePartDenotes(Parts(Printed(numbers)), n) <==> n in numbers
  {
    var parts := Parts(Printed(numbers));
    PartsAreNonEmptyPieces(Printed(numbers));
    if numbers == [] {
      assert Cleaned("") == "" && Pieces("") == [""] && [""][1..] == [];
    } else {
      PiecesOfPrinted(numbers);
      NoneEmpty(Shown(numbers));
      forall i | 0 <= i < |numbers|
        ensures IsNumeral(parts[i]) && Value(parts[i]) == numbers[i]
      {
        ValueOfShow(numbers[i]);
      }
      forall part, n | part in parts
        ensures IsNumeral(part) && (Denotes(part, n) <==> n == Value(part))
      {
        forall a, b ensures !IsRange(part, a, b) { RangeTextExactly(part, a, b); }
      }
      forall n | n in numbers
        ensures SomePartDenotes(parts, n)
      {
        var i :| 0 <= i < |numbers| && numbers[i] == n;
        assert parts[i] in parts;
      }
    }
  }
}

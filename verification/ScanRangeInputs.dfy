/** The scan range input (frontend workflows-lib validationUtils.ts and ScanRangeInput.tsx): typed text is validated,
    and every valid range is reported. */
module ScanRangeInputs {
  import opened Decimal
  import opened ScanRanges
  import opened Text
  import opened Wrappers

  datatype RawScanRange = RawScanRange(excludedRaw: string, start: string, end: string)

  datatype ScanRange = ScanRange(start: nat, end: nat, excluded: seq<nat>)

  /** The message beside a field, if any. */
  datatype Complaint = NoComplaint | NotPositiveInteger | EndBeforeStart | OutOfRange | Unreadable(error: ScanError)

  datatype Complaints = Complaints(start: Complaint, end: Complaint, excluded: Complaint)

  datatype Validation = Validation(errors: Complaints, parsed: Option<ScanRange>)

  /** parseInt(s, 10): white space, a sign and as many digits as there are; None is NaN. */
  function ParseInt(s: string): Option<int> {
    SignedInt(s[Run(s, IsSpace)..])
  }

  function SignedInt(s: string): Option<int> {
    if s != "" && s[0] == '-' then
      var n := LeadingInt(s[1..]);
      if n.Some? then Some(-n.value) else None
    else LeadingInt(if s != "" && s[0] == '+' then s[1..] else s)
  }

  function LeadingInt(s: string): Option<int> {
    var n := Run(s, IsDigit);
    if n == 0 then None else Some(Value(s[..n]))
  }

  /** White space, a sign, digits, and whatever does not go on with a digit. */
  datatype IntText = IntText(space: string, sign: string, digits: string, rest: string)

  predicate IsIntText(s: string, i: IntText) {
    && s == i.space + (i.sign + (i.digits + i.rest)) && i.sign in {"", "+", "-"} && IsNumeral(i.digits)
    && (forall k :: 0 <= k < |i.space| ==> IsSpace(i.space[k])) && (i.rest == "" || !IsDigit(i.rest[0]))
  }

  function IntOf(i: IntText): int
    requires IsNumeral(i.digits)
  {
    var n: int := Value(i.digits);
    if i.sign == "-" then -n else n
  }

  /** The text begins with that integer. */
  ghost predicate BeginsWith(s: string, n: int) {
    exists i :: IsIntText(s, i) && n == IntOf(i)
  }

  lemma {:induction false} DigitsAreParsed(digits: string, rest: string)
    requires IsNumeral(digits) && (rest == "" || !IsDigit(rest[0]))
    ensures LeadingInt(digits + rest) == Some(Value(digits))
  {
    RunOver(digits, rest, IsDigit);
  }

  lemma {:induction false} SignIsParsed(sign: string, tail: string)
    requires sign in {"", "+", "-"} && tail != "" && IsDigit(tail[0])
    ensures !IsSpace((sign + tail)[0])
    ensures sign == "-" && LeadingInt(tail).Some? ==> SignedInt(sign + tail) == Some(-LeadingInt(tail).value)
    ensures sign != "-" ==> SignedInt(sign + tail) == LeadingInt(tail)
  {
    if sign == "" {
      assert sign + tail == tail;
    } else {
      assert (sign + tail)[0] == sign[0] && (sign + tail)[1..] == tail;
    }
  }

  lemma {:induction false} IntTextIsParsed(s: string, i: IntText)
    requires IsIntText(s, i)
    ensures ParseInt(s) == Some(IntOf(i))
  {
    var tail := i.digits + i.rest;
    assert tail[0] == i.digits[0];
    DigitsAreParsed(i.digits, i.rest);
    SignIsParsed(i.sign, tail);
    RunOver(i.space, i.sign + tail, IsSpace);
  }

  /** What follows the sign, if there is one. */
  lemma {:induction false} SignSplits(s: string) returns (sign: string, tail: string)
    requires SignedInt(s).Some?
    ensures s == sign + tail && sign in {"", "+", "-"} && LeadingInt(tail).Some?
    ensures SignedInt(s).value == if sign == "-" then -LeadingInt(tail).value else LeadingInt(tail).value
  {
    if s != "" && s[0] in {'-', '+'} {
      sign, tail := s[..1], s[1..];
      assert sign == [s[0]];
    } else {
      sign, tail := "", s;
    }
  }

  lemma {:induction false} DigitsSplit(s: string) returns (digits: string, rest: string)
    requires LeadingInt(s).Some?
    ensures s == digits + rest && IsNumeral(digits) && (rest == "" || !IsDigit(rest[0]))
    ensures LeadingInt(s) == Some(Value(digits))
  {
    var n := Run(s, IsDigit);
    digits, rest := s[..n], s[n..];
  }

  lemma {:induction false} SpaceSplits(s: string) returns (space: string, tail: string)
    ensures s == space + tail && ParseInt(s) == SignedInt(tail)
    ensures forall k :: 0 <= k < |space| ==> IsSpace(space[k])
  {
    var a := Run(s, IsSpace);
    space, tail := s[..a], s[a..];
  }

  lemma {:induction false} ParsedIntIsThere(s: string)
    requires ParseInt(s).Some?
    ensures BeginsWith(s, ParseInt(s).value)
  {
    var space, signed := SpaceSplits(s);
    var sign, tail := SignSplits(signed);
    var digits, rest := DigitsSplit(tail);
    var i := IntText(space, sign, digits, rest);
    assert IsIntText(s, i) && IntOf(i) == ParseInt(s).value;
  }

  /** parseInt reads the integer that the text begins with, and nothing else. */
  lemma {:induction false} ParseIntExactly(s: string, n: int)
    ensures ParseInt(s) == Some(n) <==> BeginsWith(s, n)
  {
    if ParseInt(s) == Some(n) {
      ParsedIntIsThere(s);
    }
    if BeginsWith(s, n) {
      var i :| IsIntText(s, i) && n == IntOf(i);
      IntTextIsParsed(s, i);
    }
  }

  /** num < start || num > end, where no number compares with NaN. */
  predicate IsOutside(n: nat, start: Option<int>, end: Option<int>) {
    (start.Some? && n < start.value) || (end.Some? && n > end.value)
  }

  predicate IsBlank(s: string) {
    Run(s, IsSpace) == |s|
  }

  /** Its try block: what is excluded, or the message of the error. */
  method ReadExcluded(raw: RawScanRange) returns (excludedScans: seq<nat>, excludedError: Complaint)
    ensures ExcludedOf(raw).Ok? ==> excludedScans == ExcludedOf(raw).value && excludedError == NoComplaint
    ensures ExcludedOf(raw).Err? ==> excludedScans == [] && excludedError == Unreadable(ExcludedOf(raw).error)
  {
    excludedScans, excludedError := [], NoComplaint;
    if !IsBlank(raw.excludedRaw) {
      var r := ParseExcludedScans(raw.excludedRaw);
      if r.Ok? {
        excludedScans := r.value;
      } else {
        excludedError := Unreadable(r.error);
      }
    }
  }

  /** validateScanRange. */
  method ValidateScanRange(raw: RawScanRange) returns (v: Validation)
    ensures v == Validated(raw)
  {
    var validStart, validEnd := IsNumeral(raw.start), IsNumeral(raw.end);
    var newStart, newEnd := ParseInt(raw.start), ParseInt(raw.end);
    var excludedScans, excludedError := ReadExcluded(raw);
    if exists n :: n in excludedScans && IsOutside(n, newStart, newEnd) {
      excludedError := OutOfRange;
    }
    var startError := if validStart then NoComplaint else NotPositiveInteger;
    var endError := NoComplaint;
    if !validEnd {
      endError := NotPositiveInteger;
    } else if newStart.Some? && newEnd.Some? && newEnd.value < newStart.value {
      endError := EndBeforeStart;
    }
    var errors := Complaints(startError, endError, excludedError);
    var parsed := None;
    if errors == Complaints(NoComplaint, NoComplaint, NoComplaint) {
      NumeralsAreInts(raw.start);
      NumeralsAreInts(raw.end);
      parsed := Some(ScanRange(newStart.value, newEnd.value, excludedScans));
    } else if validStart {
      NumeralsAreInts(raw.start);
    }
    v := Validation(errors, parsed);
  }

  // ---------------------------------------------------------------- what validating yields

  function ExcludedOf(raw: RawScanRange): Result<seq<nat>, ScanError> {
    if IsBlank(raw.excludedRaw) then Ok([]) else Parsed(raw.excludedRaw)
  }

  function StartComplaint(raw: RawScanRange): Complaint {
    if IsNumeral(raw.start) then NoComplaint else NotPositiveInteger
  }

  function EndComplaint(raw: RawScanRange): Complaint {
    var start, end := ParseInt(raw.start), ParseInt(raw.end);
    if !IsNumeral(raw.end) then NotPositiveInteger
    else if start.Some? && end.Some? && end.value < start.value then EndBeforeStart
    else NoComplaint
  }

  function ExcludedComplaint(raw: RawScanRange): Complaint {
    match ExcludedOf(raw)
    case Err(error) => Unreadable(error)
    case Ok(excluded) =>
      var start, end := ParseInt(raw.start), ParseInt(raw.end);
      if exists n :: n in excluded && IsOutside(n, start, end) then OutOfRange else NoComplaint
  }

  function Validated(raw: RawScanRange): Validation {
    var errors := Complaints(StartComplaint(raw), EndComplaint(raw), ExcludedComplaint(raw));
    Validation(errors,
               if errors == Complaints(NoComplaint, NoComplaint, NoComplaint)
               then Some(ScanRange(Value(raw.start), Value(raw.end), ExcludedOf(raw).value))
               else None)
  }

  lemma {:induction false} NumeralsAreInts(s: string)
    requires IsNumeral(s)
    ensures ParseInt(s) == Some(Value(s))
  {
    assert !IsSpace(s[0]) && IsDigit(s[0]);
    assert Run(s, IsSpace) == 0 && s[0..] == s;
    RunOver(s, "", IsDigit);
    assert s + "" == s && s[..|s|] == s;
  }

  /** A range in order, with what is excluded strictly increasing and within it. */
  predicate IsProper(range: ScanRange) {
    && range.start <= range.end && IsIncreasing(range.excluded)
    && forall n :: n in range.excluded ==> range.start <= n <= range.end
  }

  /** A range is accepted exactly if both bounds are numerals of its bounds, the excluded scans are blank or parse to
      its excluded ones, and the range is proper. */
  lemma {:induction false} AcceptedExactly(raw: RawScanRange, range: ScanRange)
    ensures Validated(raw).parsed == Some(range)
            <==> IsNumeral(raw.start) && Value(raw.start) == range.start
                 && IsNumeral(raw.end) && Value(raw.end) == range.end
                 && ExcludedOf(raw) == Ok(range.excluded) && IsProper(range)
  {
    if IsNumeral(raw.start) && IsNumeral(raw.end) && ExcludedOf(raw).Ok? {
      NumeralsAreInts(raw.start);
      NumeralsAreInts(raw.end);
      ExcludedIncrease(raw);
      NoneOutside(raw, ExcludedOf(raw).value);
    }
  }

  lemma ExcludedIncrease(raw: RawScanRange)
    requires ExcludedOf(raw).Ok?
    ensures IsIncreasing(ExcludedOf(raw).value)
  {
    ParsedExactly(raw.excludedRaw);
  }

  lemma NoneOutside(raw: RawScanRange, excluded: seq<nat>)
    requires IsNumeral(raw.start) && IsNumeral(raw.end) && ExcludedOf(raw) == Ok(excluded)
    ensures ExcludedComplaint(raw) == NoComplaint <==>
            forall n :: n in excluded ==> Value(raw.start) <= n <= Value(raw.end)
  {
    NumeralsAreInts(raw.start);
    NumeralsAreInts(raw.end);
  }

  /** Some integer that the text begins with is above n. */
  ghost predicate BeginsAbove(s: string, n: nat) {
    exists k: int :: BeginsWith(s, k) && n < k
  }

  ghost predicate BeginsBelow(s: string, n: nat) {
    exists k: int :: BeginsWith(s, k) && k < n
  }

  lemma {:induction false} ComparesExactly(s: string, n: nat)
    ensures BeginsAbove(s, n) <==> ParseInt(s).Some? && n < ParseInt(s).value
    ensures BeginsBelow(s, n) <==> ParseInt(s).Some? && ParseInt(s).value < n
  {
    forall k: int { ParseIntExactly(s, k); }
    if ParseInt(s).Some? { assert BeginsWith(s, ParseInt(s).value); }
  }

  /** Which message is shown beside which field, whatever the bounds hold: a bound that is no numeral still counts by
      the integer it begins with, if it begins with one. */
  lemma {:induction false} ComplaintsExactly(raw: RawScanRange)
    ensures var errors := Validated(raw).errors;
            && errors.start == (if IsNumeral(raw.start) then NoComplaint else NotPositiveInteger)
            && errors.end == (if !IsNumeral(raw.end) then NotPositiveInteger
                              else if BeginsAbove(raw.start, Value(raw.end)) then EndBeforeStart
                              else NoComplaint)
    ensures var errors, excluded := Validated(raw).errors, ExcludedOf(raw);
            && (excluded.Err? ==> errors.excluded == Unreadable(excluded.error))
            && (excluded.Ok? ==> errors.excluded in {NoComplaint, OutOfRange})
            && (errors.excluded == OutOfRange
                <==> excluded.Ok? && exists n :: n in excluded.value
                                                 && (BeginsAbove(raw.start, n) || BeginsBelow(raw.end, n)))
  {
    if IsNumeral(raw.end) {
      NumeralsAreInts(raw.end);
      ComparesExactly(raw.start, Value(raw.end));
    }
    forall n: nat
      ensures IsOutside(n, ParseInt(raw.start), ParseInt(raw.end))
              <==> BeginsAbove(raw.start, n) || BeginsBelow(raw.end, n)
    {
      ComparesExactly(raw.start, n);
      ComparesExactly(raw.end, n);
    }
  }

  /** Which message is shown beside which field, when both bounds are numerals. */
  lemma {:induction false} ComplaintsBetweenNumerals(raw: RawScanRange)
    requires IsNumeral(raw.start) && IsNumeral(raw.end)
    ensures var errors, excluded := Validated(raw).errors, ExcludedOf(raw);
            && errors.start == NoComplaint
            && errors.end == (if Value(raw.end) < Value(raw.start) then EndBeforeStart else NoComplaint)
            && (excluded.Err? ==> errors.excluded == Unreadable(excluded.error))
            && (excluded.Ok? ==> errors.excluded in {NoComplaint, OutOfRange})
            && (errors.excluded == OutOfRange
                <==> excluded.Ok? && exists n :: n in excluded.value && !(Value(raw.start) <= n <= Value(raw.end)))
  {
    NumeralsAreInts(raw.start);
    NumeralsAreInts(raw.end);
  }

  /** A bound that is no numeral is told at its field, and nothing is accepted. */
  lemma {:induction false} BoundsAreNumerals(raw: RawScanRange)
    ensures Validated(raw).errors.start == NotPositiveInteger <==> !IsNumeral(raw.start)
    ensures Validated(raw).errors.end == NotPositiveInteger <==> !IsNumeral(raw.end)
    ensures Validated(raw).parsed.Some? ==> IsNumeral(raw.start) && IsNumeral(raw.end)
  {
  }

  // ---------------------------------------------------------------- printing a range

  /** The text first shown for a value; a bound of zero is shown as nothing. */
  function Initial(value: ScanRange): RawScanRange {
    RawScanRange(Printed(value.excluded),
                 if value.start == 0 then "" else Show(value.start),
                 if value.end == 0 then "" else Show(value.end))
  }

  /** The text first shown for a range is read as that range exactly if the range is proper and starts at 1 or above. */
  lemma {:induction false} InitialReadsBackExactly(value: ScanRange)
    ensures Validated(Initial(value)).parsed == Some(value) <==> IsProper(value) && value.start >= 1
  {
    var raw := Initial(value);
    AcceptedExactly(raw, value);
    ValueOfShow(value.start);
    ValueOfShow(value.end);
    if IsProper(value) {
      ExcludedReadsBack(value);
    }
  }

  lemma {:induction false} ExcludedReadsBack(value: ScanRange)
    requires IsIncreasing(value.excluded)
    ensures ExcludedOf(Initial(value)) == Ok(value.excluded)
  {
    ParsedOfPrinted(value.excluded);
    if value.excluded != [] {
      FirstIsShown(value.excluded);
      var text := Printed(value.excluded);
      assert !IsSpace(text[0]);
    }
  }

  lemma FirstIsShown(numbers: seq<nat>)
    requires numbers != []
    ensures Printed(numbers) != "" && IsDigit(Printed(numbers)[0])
  {
    assert Show(numbers[0]) <= Printed(numbers);
  }

  // ---------------------------------------------------------------- the component

  datatype Action = Start(payload: string) | End(payload: string) | Excluded(payload: string)

  /** The text after an action. */
  function Edited(raw: RawScanRange, action: Action): RawScanRange {
    match action
    case Start(payload) => raw.(start := payload)
    case End(payload) => raw.(end := payload)
    case Excluded(payload) => raw.(excludedRaw := payload)
  }

  class ScanRangeInput {
    var rawRange: RawScanRange
    var componentError: Complaints
    /** The ranges passed to handleChange. */
    var reported: seq<ScanRange>

    constructor (value: ScanRange)
      ensures rawRange == Initial(value) && reported == []
      ensures componentError == Complaints(NoComplaint, NoComplaint, NoComplaint)
    {
      rawRange := Initial(value);
      componentError := Complaints(NoComplaint, NoComplaint, NoComplaint);
      reported := [];
    }

    /** scanRangeReducer. */
    method Dispatch(action: Action)
      modifies this
      ensures rawRange == Edited(old(rawRange), action)
      ensures componentError == Validated(rawRange).errors
      ensures var parsed := Validated(rawRange).parsed;
              reported == old(reported) + if parsed.Some? then [parsed.value] else []
    {
      match action {
        case Start(payload) => rawRange := rawRange.(start := payload);
        case End(payload) => rawRange := rawRange.(end := payload);
        case Excluded(payload) => rawRange := rawRange.(excludedRaw := payload);
      }
      var result := ValidateScanRange(rawRange);
      componentError := result.errors;
      if result.parsed.Some? {
        reported := reported + [result.parsed.value];
      }
    }
  }

  /** Typing: a sequence of actions, from the text first shown. */
  method Type(value: ScanRange, actions: seq<Action>) returns (input: ScanRangeInput)
    ensures forall range :: range in input.reported ==> IsProper(range)
    ensures forall range | range in input.reported && range.start >= 1 ::
              Validated(Initial(range)).parsed == Some(range)
  {
    input := new ScanRangeInput(value);
    for i := 0 to |actions|
      invariant fresh(input)
      invariant forall range :: range in input.reported ==> IsProper(range)
    {
      input.Dispatch(actions[i]);
      var raw := input.rawRange;
      if Validated(raw).parsed.Some? {
        AcceptedExactly(raw, Validated(raw).parsed.value);
      }
    }
    forall range | range in input.reported && range.start >= 1
      ensures Validated(Initial(range)).parsed == Some(range)
    {
      InitialReadsBackExactly(range);
    }
  }
}

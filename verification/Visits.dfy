/** Visit texts such as "mg36964-1" (graph-proxy graphql/mod.rs), and how the frontend reads them (commonUtils.ts). */
module Visits {
  import opened Decimal
  import opened Text
  import opened Wrappers

  /** The numbers of a visit are u32 in the backend. */
  datatype Visit = Visit(proposalCode: string, proposalNumber: nat, number: nat)

  predicate IsU32(v: Visit) {
    v.proposalNumber <= 0xFFFF_FFFF && v.number <= 0xFFFF_FFFF
  }

  predicate IsLetter(c: char) {
    'A' <= c <= 'Z' || 'a' <= c <= 'z'
  }

  predicate IsAlphabetic(s: string) {
    s != "" && forall i :: 0 <= i < |s| ==> IsLetter(s[i])
  }

  function Show(v: Visit): string {
    v.proposalCode + Decimal.Show(v.proposalNumber) + "-" + Decimal.Show(v.number)
  }

  // ---------------------------------------------------------------- matching

  /** \d of the regex crate: ASCII digits, and the decimal digits of other scripts. */
  predicate IsWideDigit(c: char, wide: char -> bool) {
    IsDigit(c) || wide(c)
  }

  predicate IsWideNumeral(s: string, wide: char -> bool) {
    s != "" && forall i :: 0 <= i < |s| ==> IsWideDigit(s[i], wide)
  }

  /** The decimal digits of other scripts are not ASCII characters. */
  ghost predicate OutsideAscii(wide: char -> bool) {
    forall c :: wide(c) ==> c as int >= 128
  }

  datatype Groups = Groups(code: string, number: string, visit: string)

  /** The regular expression ^([A-Za-z]+)(\d+)-(\d+)$ and its groups. */
  ghost predicate Matches(s: string, g: Groups, wide: char -> bool) {
    && s == g.code + (g.number + ("-" + g.visit))
    && IsAlphabetic(g.code) && IsWideNumeral(g.number, wide) && IsWideNumeral(g.visit, wide)
  }

  /** What the leftmost, longest reading of the regular expression captures. */
  function Captures(s: string, wide: char -> bool): Option<Groups> {
    var a := Run(s, IsLetter);
    var rest := s[a..];
    var b := Run(rest, (c: char) => IsWideDigit(c, wide));
    if a == 0 || b == 0 || b == |rest| || rest[b] != '-' || !IsWideNumeral(rest[b + 1..], wide) then None
    else Some(Groups(s[..a], rest[..b], rest[b + 1..]))
  }

  /** Matching is exact, and a text matches in one way at most. */
  lemma {:induction false} CapturesExactly(s: string, g: Groups, wide: char -> bool)
    requires OutsideAscii(wide)
    ensures Captures(s, wide) == Some(g) <==> Matches(s, g, wide)
  {
    if Matches(s, g, wide) {
      CapturesMatched(s, g, wide);
    }
    if Captures(s, wide) == Some(g) {
      CapturedMatches(s, g, wide);
    }
  }

  lemma {:induction false} CapturedMatches(s: string, g: Groups, wide: char -> bool)
    requires Captures(s, wide) == Some(g)
    ensures Matches(s, g, wide)
  {
    var rest := s[|g.code|..];
    assert s == g.code + rest;
    assert rest == g.number + ("-" + g.visit);
  }

  lemma {:induction false} CapturesMatched(s: string, g: Groups, wide: char -> bool)
    requires OutsideAscii(wide) && Matches(s, g, wide)
    ensures Captures(s, wide) == Some(g)
  {
    var last := "-" + g.visit;
    var rest := g.number + last;
    assert rest[0] == g.number[0];
    RunOver(g.code, rest, IsLetter);
    RunOver(g.number, last, (c: char) => IsWideDigit(c, wide));
    assert rest[|g.number|] == last[0];
    assert rest[|g.number| + 1..] == last[1..] == g.visit;
  }

  // ---------------------------------------------------------------- parsing

  datatype VisitError = InvalidVisitFormat | InvalidProposalNumber | InvalidVisitNumber

  /** u32::from_str on digits: ASCII digits only, and no more than fit. */
  function ParseU32(s: string): Option<nat> {
    if IsNumeral(s) && Value(s) <= 0xFFFF_FFFF then Some(Value(s)) else None
  }

  /** VisitInput::from_str. */
  function Parse(s: string, wide: char -> bool): Result<Visit, VisitError> {
    match Captures(s, wide)
    case None => Err(InvalidVisitFormat)
    case Some(g) =>
      match (ParseU32(g.number), ParseU32(g.visit))
      case (None, _) => Err(InvalidProposalNumber)
      case (Some(_), None) => Err(InvalidVisitNumber)
      case (Some(number), Some(visit)) => Ok(Visit(g.code, number, visit))
  }

  lemma ShowMatches(v: Visit, wide: char -> bool)
    requires OutsideAscii(wide) && IsAlphabetic(v.proposalCode)
    ensures Captures(Show(v), wide)
         == Some(Groups(v.proposalCode, Decimal.Show(v.proposalNumber), Decimal.Show(v.number)))
  {
    var g := Groups(v.proposalCode, Decimal.Show(v.proposalNumber), Decimal.Show(v.number));
    ShowIsJoined(v);
    CapturesMatched(Show(v), g, wide);
  }

  /** Parsing undoes printing exactly for the visits with an alphabetic code. */
  lemma {:induction false} ParseOfShow(v: Visit, wide: char -> bool)
    requires OutsideAscii(wide) && IsU32(v)
    ensures Parse(Show(v), wide) == Ok(v) <==> IsAlphabetic(v.proposalCode)
  {
    if IsAlphabetic(v.proposalCode) {
      ShowMatches(v, wide);
      ValueOfShow(v.proposalNumber);
      ValueOfShow(v.number);
    }
    if Parse(Show(v), wide) == Ok(v) {
      var g := Captures(Show(v), wide).value;
      CapturesExactly(Show(v), g, wide);
    }
  }

  /** Printing undoes parsing exactly for the texts whose numbers have no leading zero. */
  lemma {:induction false} ShowOfParse(s: string, g: Groups, v: Visit, wide: char -> bool)
    requires OutsideAscii(wide) && Matches(s, g, wide) && Parse(s, wide) == Ok(v)
    ensures Show(v) == s <==> IsCanonical(g.number) && IsCanonical(g.visit)
  {
    CapturesMatched(s, g, wide);
    ShowOfValue(g.number);
    ShowOfValue(g.visit);
    if Show(v) == s {
      ShowMatches(v, wide);
    } else {
      ShowIsJoined(v);
    }
  }

  lemma ShowIsJoined(v: Visit)
    ensures Show(v) == v.proposalCode + (Decimal.Show(v.proposalNumber) + ("-" + Decimal.Show(v.number)))
  {
  }

  /** ASCII digits that make up a number below 2 to the 32. */
  predicate Fits(s: string) {
    IsNumeral(s) && Value(s) < 4294967296
  }

  /** Every outcome of parsing, told from the text alone. */
  lemma {:induction false} ParseExactly(s: string, wide: char -> bool)
    requires OutsideAscii(wide)
    ensures Parse(s, wide) == Err(InvalidVisitFormat) <==> !exists g :: Matches(s, g, wide)
    ensures forall g | Matches(s, g, wide) ::
              && (Parse(s, wide) == Err(InvalidProposalNumber) <==> !Fits(g.number))
              && (Parse(s, wide) == Err(InvalidVisitNumber) <==> Fits(g.number) && !Fits(g.visit))
              && (Parse(s, wide).Ok? <==> Fits(g.number) && Fits(g.visit))
              && (Parse(s, wide).Ok? ==> Parse(s, wide).value == Visit(g.code, Value(g.number), Value(g.visit)))
  {
    forall g | Matches(s, g, wide)
      ensures Captures(s, wide) == Some(g)
    {
      CapturesExactly(s, g, wide);
    }
    if Captures(s, wide).Some? {
      CapturesExactly(s, Captures(s, wide).value, wide);
    }
  }

  /** Visits with alphabetic codes are told apart by their texts. */
  lemma {:induction false} ShowTellsApart(a: Visit, b: Visit)
    requires IsAlphabetic(a.proposalCode) && IsAlphabetic(b.proposalCode) && Show(a) == Show(b)
    ensures a == b
  {
    var none := (c: char) => false;
    ShowMatches(a, none);
    ShowMatches(b, none);
    ShowInjective(a.proposalNumber, b.proposalNumber);
    ShowInjective(a.number, b.number);
  }

  /** A digit in a code makes two visits share one text. */
  lemma DigitsInCodesClash()
    ensures Show(Visit("a1", 2, 3)) == Show(Visit("a", 12, 3))
  {
    assert Decimal.Show(12) == "12" && Decimal.Show(2) == "2";
  }

  // ---------------------------------------------------------------- the frontend

  predicate IsLower(c: char) {
    'a' <= c <= 'z'
  }

  /** Two lower-case letters. */
  predicate IsShortCode(s: string) {
    |s| == 2 && IsLower(s[0]) && IsLower(s[1])
  }

  /** [1-9]\d*, where \d means ASCII digits. */
  predicate IsPositiveNumeral(s: string) {
    IsNumeral(s) && s[0] != '0'
  }

  /** visitTextToVisit: ^([a-z]{2})([1-9]\d*)-([1-9]\d*) at the front of the text, whatever follows. */
  function VisitTextToVisit(s: string): Option<Visit> {
    if |s| < 2 || !IsShortCode(s[..2]) then None
    else
      var rest := s[2..];
      var b := Run(rest, IsDigit);
      if b == 0 || rest[0] == '0' || b == |rest| || rest[b] != '-' then None
      else
        var last := rest[b + 1..];
        var e := Run(last, IsDigit);
        if e == 0 || last[0] == '0' then None
        else Some(Visit(s[..2], Value(rest[..b]), Value(last[..e])))
  }

  /** The front part the frontend reads, and what follows it. */
  ghost predicate FrontMatches(s: string, g: Groups, tail: string) {
    && s == g.code + (g.number + ("-" + (g.visit + tail)))
    && IsShortCode(g.code) && IsPositiveNumeral(g.number) && IsPositiveNumeral(g.visit)
    && (tail == "" || !IsDigit(tail[0]))
  }

  lemma {:induction false} FrontReads(s: string, g: Groups, tail: string)
    requires FrontMatches(s, g, tail)
    ensures VisitTextToVisit(s) == Some(Visit(g.code, Value(g.number), Value(g.visit)))
  {
    var last := g.visit + tail;
    var rest := g.number + ("-" + last);
    assert s[..2] == g.code && s[2..] == rest;
    RunOver(g.number, "-" + last, IsDigit);
    assert rest[|g.number|] == '-' && rest[0] == g.number[0];
    assert rest[|g.number| + 1..] == last;
    RunOver(g.visit, tail, IsDigit);
    assert last[0] == g.visit[0];
  }

  lemma CutInThree(s: string, b: nat, e: nat)
    requires b + 1 + e <= |s|
    ensures s == s[..b] + ([s[b]] + (s[b + 1..][..e] + s[b + 1..][e..]))
  {
    assert s[b + 1..] == s[b + 1..][..e] + s[b + 1..][e..];
    assert s == s[..b] + ([s[b]] + s[b + 1..]);
  }

  lemma {:induction false} FrontReadsOnly(s: string) returns (g: Groups, tail: string)
    requires VisitTextToVisit(s).Some?
    ensures FrontMatches(s, g, tail)
  {
    var rest := s[2..];
    var b := Run(rest, IsDigit);
    var last := rest[b + 1..];
    var e := Run(last, IsDigit);
    g, tail := Groups(s[..2], rest[..b], last[..e]), last[e..];
    CutInThree(rest, b, e);
    assert [rest[b]] == "-";
    assert s == g.code + rest;
  }

  ghost predicate BeginsWithVisit(s: string) {
    exists g, tail :: FrontMatches(s, g, tail)
  }

  /** The frontend reads a visit exactly from the texts that begin with one. */
  lemma {:induction false} FrontReadsExactly(s: string)
    ensures VisitTextToVisit(s).Some? <==> BeginsWithVisit(s)
  {
    if VisitTextToVisit(s).Some? {
      var g, tail := FrontReadsOnly(s);
    }
    if BeginsWithVisit(s) {
      var g, tail :| FrontMatches(s, g, tail);
      FrontReads(s, g, tail);
    }
  }

  /** On a text the backend accepts, the frontend reads the same visit exactly when the code is two lower-case
      letters and no number starts with a zero; on other such texts it reads none. */
  lemma {:induction false} FrontendAgrees(s: string, g: Groups, v: Visit, wide: char -> bool)
    requires OutsideAscii(wide) && Matches(s, g, wide) && Parse(s, wide) == Ok(v)
    ensures VisitTextToVisit(s) == Some(v) <==> IsShortCode(g.code) && g.number[0] != '0' && g.visit[0] != '0'
    ensures VisitTextToVisit(s) in {None, Some(v)}
  {
    CapturesMatched(s, g, wide);
    if IsShortCode(g.code) && g.number[0] != '0' && g.visit[0] != '0' {
      assert FrontMatches(s, g, "");
      FrontReads(s, g, "");
    }
    if VisitTextToVisit(s).Some? {
      var f, tail := FrontReadsOnly(s);
      ReadsTheSame(s, g, f, tail, wide);
    }
  }

  /** A match of the whole text and the front part read from it differ in the last number only. */
  lemma {:induction false} FrontOfMatch(s: string, g: Groups, f: Groups, tail: string, wide: char -> bool)
    requires OutsideAscii(wide) && Matches(s, g, wide) && FrontMatches(s, f, tail)
    ensures g.code == f.code && g.number == f.number && g.visit == f.visit + tail
  {
    var fRest, gRest := f.number + ("-" + (f.visit + tail)), g.number + ("-" + g.visit);
    assert fRest[0] == f.number[0] && gRest[0] == g.number[0];
    RunOver(f.code, fRest, IsLetter);
    RunOver(g.code, gRest, IsLetter);
    SameNumber(g.number, "-" + g.visit, f.number, "-" + (f.visit + tail), wide);
    assert ("-" + g.visit)[1..] == g.visit && ("-" + (f.visit + tail))[1..] == f.visit + tail;
  }

  lemma {:induction false} ReadsTheSame(s: string, g: Groups, f: Groups, tail: string, wide: char -> bool)
    requires OutsideAscii(wide) && Matches(s, g, wide) && IsNumeral(g.visit) && FrontMatches(s, f, tail)
    ensures f == g && tail == ""
  {
    FrontOfMatch(s, g, f, tail, wide);
    RunOver(f.visit, tail, IsDigit);
    RunOver(g.visit, "", IsDigit);
    assert g.visit + "" == g.visit;
  }

  lemma {:induction false} SameNumber(a: string, aRest: string, b: string, bRest: string, wide: char -> bool)
    requires OutsideAscii(wide) && IsWideNumeral(a, wide) && IsNumeral(b) && a + aRest == b + bRest
    requires aRest != "" && bRest != "" && aRest[0] == bRest[0] == '-'
    ensures a == b && aRest == bRest
  {
    var p := (c: char) => IsWideDigit(c, wide);
    RunOver(a, aRest, p);
    RunOver(b, bRest, p);
  }

  lemma {:induction false} WideTailMatches(s: string, g: Groups, tail: string, wide: char -> bool)
    requires OutsideAscii(wide) && FrontMatches(s, g, tail)
    requires forall i :: 0 <= i < |tail| ==> IsWideDigit(tail[i], wide)
    ensures Captures(s, wide) == Some(Groups(g.code, g.number, g.visit + tail))
  {
    CapturesMatched(s, Groups(g.code, g.number, g.visit + tail), wide);
  }

  lemma {:induction false} TailIsWide(s: string, read: Groups, g: Groups, tail: string, wide: char -> bool)
    requires OutsideAscii(wide) && FrontMatches(s, g, tail) && Matches(s, read, wide)
    ensures forall i :: 0 <= i < |tail| ==> IsWideDigit(tail[i], wide)
  {
    FrontOfMatch(s, read, g, tail, wide);
    assert forall i :: 0 <= i < |tail| ==> tail[i] == read.visit[|g.visit| + i];
  }

  lemma NumeralFront(front: string, tail: string)
    requires IsNumeral(front) && (tail == "" || !IsDigit(tail[0]))
    ensures IsNumeral(front + tail) <==> tail == ""
    ensures tail == "" ==> front + tail == front
  {
    if tail != "" { assert (front + tail)[|front|] == tail[0]; }
  }

  /** Of the texts that the frontend reads, the backend accepts exactly those that end where the frontend stops and
      whose numbers fit, and it reads the same visit; it finds no visit at all exactly if something other than digits
      follows. */
  lemma {:induction false} BackendAcceptsExactly(s: string, g: Groups, tail: string, wide: char -> bool)
    requires OutsideAscii(wide) && FrontMatches(s, g, tail)
    ensures VisitTextToVisit(s) == Some(Visit(g.code, Value(g.number), Value(g.visit)))
    ensures Parse(s, wide).Ok? <==> tail == "" && Value(g.number) < 4294967296 && Value(g.visit) < 4294967296
    ensures Parse(s, wide).Ok? ==> Some(Parse(s, wide).value) == VisitTextToVisit(s)
    ensures Parse(s, wide) == Err(InvalidVisitFormat) <==> exists i :: 0 <= i < |tail| && !IsWideDigit(tail[i], wide)
  {
    FrontReads(s, g, tail);
    if forall i :: 0 <= i < |tail| ==> IsWideDigit(tail[i], wide) {
      WideTailMatches(s, g, tail, wide);
      NumeralFront(g.visit, tail);
    } else if Captures(s, wide).Some? {
      CapturedMatches(s, Captures(s, wide).value, wide);
      TailIsWide(s, Captures(s, wide).value, g, tail, wide);
    }
  }

  /** The frontend also reads a visit from texts that the backend rejects: whatever follows, it ignores. */
  lemma {:induction false} FrontendIgnoresTheRest(wide: char -> bool)
    requires OutsideAscii(wide)
    ensures VisitTextToVisit("mg1-2.5") == Some(Visit("mg", 1, 2)) && Parse("mg1-2.5", wide) == Err(InvalidVisitFormat)
  {
    var s, g := "mg1-2.5", Groups("mg", "1", "2");
    assert s == g.code + (g.number + ("-" + (g.visit + ".5")));
    assert Value("1") == 1 && Value("2") == 2;
    assert !IsWideDigit(".5"[0], wide);
    BackendAcceptsExactly(s, g, ".5", wide);
  }
}

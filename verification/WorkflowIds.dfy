/** Workflow IDs "visit:name:uid", as graph-proxy writes and reads them and as the frontend splits them. */
module WorkflowIds {
  import opened Text
  import opened Visits
  import opened Wrappers

  /** What identifies a workflow. */
  datatype Key = Key(visit: Visit, name: string, uid: string)

  /** Workflow::id. */
  function IdOf(k: Key): string {
    Visits.Show(k.visit) + ":" + k.name + ":" + k.uid
  }

  datatype IdError = InvalidWorkflowId | InvalidVisit(error: VisitError)

  /** The workflow that workflow_by_id looks for. */
  function WorkflowById(id: string, wide: char -> bool): Result<Key, IdError> {
    var parts := Split(id, ':');
    if |parts| != 3 then Err(InvalidWorkflowId)
    else
      match Parse(parts[0], wide)
      case Err(error) => Err(InvalidVisit(error))
      case Ok(visit) => Ok(Key(visit, parts[1], parts[2]))
  }

  /** splitWorkflowId: a visit, with a name and uid only if there are exactly three parts. */
  datatype SplitId = SplitId(visit: Visit, nameAndUid: Option<(string, string)>)

  function SplitWorkflowId(id: string): Option<SplitId> {
    var parts := Split(id, ':');
    match VisitTextToVisit(parts[0])
    case None => None
    case Some(visit) => Some(SplitId(visit, if |parts| == 3 then Some((parts[1], parts[2])) else None))
  }

  // ---------------------------------------------------------------- writing and reading

  /** No colon in the parts that make up an ID. */
  predicate IsColonFree(k: Key) {
    ':' !in k.visit.proposalCode && ':' !in k.name && ':' !in k.uid
  }

  lemma {:induction false} IdSplits(k: Key)
    requires IsColonFree(k)
    ensures Split(IdOf(k), ':') == [Visits.Show(k.visit), k.name, k.uid]
  {
    var visit := Visits.Show(k.visit);
    ShownHasNoColon(k.visit);
    assert IdOf(k) == visit + [':'] + (k.name + [':'] + k.uid);
    SplitFront(visit, ':', k.name + [':'] + k.uid);
    SplitFront(k.name, ':', k.uid);
    SplitPlain(k.uid, ':');
  }

  lemma ShownHasNoColon(v: Visit)
    requires ':' !in v.proposalCode
    ensures ':' !in Visits.Show(v)
  {
    assert forall n: nat :: ':' !in Decimal.Show(n);
  }

  lemma AlphabeticHasNoColon(s: string)
    requires IsAlphabetic(s)
    ensures ':' !in s
  {
  }

  /** Reading an ID recovers the workflow it was written for exactly when the visit has an alphabetic code and
      neither name nor uid holds a colon. */
  lemma {:induction false} RecoversExactly(k: Key, wide: char -> bool)
    requires OutsideAscii(wide) && IsU32(k.visit)
    ensures WorkflowById(IdOf(k), wide) == Ok(k)
            <==> IsAlphabetic(k.visit.proposalCode) && ':' !in k.name && ':' !in k.uid
  {
    if IsAlphabetic(k.visit.proposalCode) && ':' !in k.name && ':' !in k.uid {
      AlphabeticHasNoColon(k.visit.proposalCode);
      IdSplits(k);
      ParseOfShow(k.visit, wide);
    }
    if WorkflowById(IdOf(k), wide) == Ok(k) {
      var parts := Split(IdOf(k), ':');
      SplitPieces(IdOf(k), ':');
      assert parts[1] in parts && parts[2] in parts;
      ParsedIsAlphabetic(parts[0], k.visit, wide);
    }
  }

  lemma ParsedIsAlphabetic(s: string, v: Visit, wide: char -> bool)
    requires OutsideAscii(wide) && Parse(s, wide) == Ok(v)
    ensures IsAlphabetic(v.proposalCode) && IsU32(v)
  {
    CapturedMatches(s, Captures(s, wide).value, wide);
  }

  /** Distinct workflows that can be recovered have distinct IDs. */
  lemma {:induction false} IdsTellApart(a: Key, b: Key)
    requires IsAlphabetic(a.visit.proposalCode) && IsAlphabetic(b.visit.proposalCode)
    requires IsColonFree(a) && IsColonFree(b) && IdOf(a) == IdOf(b)
    ensures a == b
  {
    IdSplits(a);
    IdSplits(b);
    ShowTellsApart(a.visit, b.visit);
  }

  /** A colon in a name makes two workflows share one ID. */
  lemma ColonsClash()
    ensures exists a: Key, b: Key :: a != b && IdOf(a) == IdOf(b)
  {
    var v := Visit("ab", 1, 1);
    var a, b := Key(v, "x:y", "z"), Key(v, "x", "y:z");
    assert IdOf(a) == Visits.Show(v) + ":x:y:z" == IdOf(b);
  }

  // ---------------------------------------------------------------- the frontend

  predicate FrontendReads(v: Visit) {
    IsShortCode(v.proposalCode) && v.proposalNumber >= 1 && v.number >= 1
  }

  /** The frontend recovers the workflow exactly when the code is two lower-case letters, both numbers are positive
      and neither name nor uid holds a colon. */
  lemma {:induction false} FrontendRecoversExactly(k: Key)
    ensures SplitWorkflowId(IdOf(k)) == Some(SplitId(k.visit, Some((k.name, k.uid))))
            <==> FrontendReads(k.visit) && ':' !in k.name && ':' !in k.uid
  {
    if FrontendReads(k.visit) && ':' !in k.name && ':' !in k.uid {
      IdSplits(k);
      FrontReadsShown(k.visit);
    }
    if SplitWorkflowId(IdOf(k)) == Some(SplitId(k.visit, Some((k.name, k.uid)))) {
      var parts := Split(IdOf(k), ':');
      SplitPieces(IdOf(k), ':');
      assert parts[1] in parts && parts[2] in parts;
      FrontReadsPositive(parts[0], k.visit);
    }
  }

  lemma {:induction false} FrontReadsShown(v: Visit)
    requires FrontendReads(v)
    ensures VisitTextToVisit(Visits.Show(v)) == Some(v)
  {
    var g := Groups(v.proposalCode, Decimal.Show(v.proposalNumber), Decimal.Show(v.number));
    ShowIsJoined(v);
    assert g.visit + "" == g.visit;
    FrontReads(Visits.Show(v), g, "");
    Decimal.ValueOfShow(v.proposalNumber);
    Decimal.ValueOfShow(v.number);
  }

  lemma {:induction false} FrontReadsPositive(s: string, v: Visit)
    requires VisitTextToVisit(s) == Some(v)
    ensures FrontendReads(v)
  {
    var g, tail := FrontReadsOnly(s);
    FrontReads(s, g, tail);
    Decimal.PositiveValue(g.number);
    Decimal.PositiveValue(g.visit);
  }

  /** A visit text alone is an ID without name and uid, read exactly if the frontend reads the visit. */
  lemma {:induction false} VisitAloneExactly(v: Visit)
    requires ':' !in v.proposalCode
    ensures SplitWorkflowId(Visits.Show(v)) == Some(SplitId(v, None)) <==> FrontendReads(v)
  {
    ShownHasNoColon(v);
    SplitPlain(Visits.Show(v), ':');
    if FrontendReads(v) { FrontReadsShown(v); }
    if VisitTextToVisit(Visits.Show(v)) == Some(v) { FrontReadsPositive(Visits.Show(v), v); }
  }

  /** Whatever ID the backend accepts, the frontend finds the same workflow or nothing at all. */
  lemma {:induction false} NeverDisagree(id: string, k: Key, wide: char -> bool)
    requires OutsideAscii(wide) && WorkflowById(id, wide) == Ok(k)
    ensures SplitWorkflowId(id) in {None, Some(SplitId(k.visit, Some((k.name, k.uid))))}
  {
    var s := Split(id, ':')[0];
    CapturedMatches(s, Captures(s, wide).value, wide);
    FrontendAgrees(s, Captures(s, wide).value, k.visit, wide);
  }

  /** Of the IDs in which the frontend finds a workflow, the backend accepts exactly those whose first part ends where
      the frontend stops reading the visit and whose numbers fit; it then looks for the same workflow. Where the
      frontend finds a visit but no workflow, the backend rejects the ID for its number of parts. */
  lemma {:induction false} BackendFindsExactly(id: string, g: Groups, tail: string, wide: char -> bool)
    requires OutsideAscii(wide) && FrontMatches(Split(id, ':')[0], g, tail)
    ensures SplitWorkflowId(id).Some?
    ensures SplitWorkflowId(id).value.nameAndUid.None? ==> WorkflowById(id, wide) == Err(InvalidWorkflowId)
    ensures SplitWorkflowId(id).value.nameAndUid.Some? ==>
              (WorkflowById(id, wide).Ok?
               <==> tail == "" && Decimal.Value(g.number) < 4294967296 && Decimal.Value(g.visit) < 4294967296)
    ensures SplitWorkflowId(id).value.nameAndUid.Some? && WorkflowById(id, wide).Ok? ==>
              var found, k := SplitWorkflowId(id).value, WorkflowById(id, wide).value;
              found.visit == k.visit && found.nameAndUid.value == (k.name, k.uid)
  {
    BackendAcceptsExactly(Split(id, ':')[0], g, tail, wide);
  }

  /** The frontend finds a visit exactly in the IDs whose first part begins with one. */
  lemma {:induction false} FrontendFindsExactly(id: string)
    ensures SplitWorkflowId(id).Some? <==> BeginsWithVisit(Split(id, ':')[0])
  {
    FrontReadsExactly(Split(id, ':')[0]);
  }
}

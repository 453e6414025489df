/** The entities of a production job, as values (production/types.go). */
module ProductionTypes {
  import opened Common

  datatype IdKind = JobId | StepId | EdgeId | PlanDocId | PlaceholderId | ResultId | BatchId | FulfillmentId

  /** An identifier string: the empty string, one the store formatted from a
      counter ("e7"), or any other text a caller may send. */
  datatype Id = NoId | Minted(kind: IdKind, num: int) | Foreign(text: string)

  /** "" reads as a plain step: files from before version 3 carry no kind. */
  datatype StepKind = Unset | Plain | Decision

  predicate IsDecision(k: StepKind) { k.Decision? }

  function NormalKind(k: StepKind): StepKind { if k.Unset? then Plain else k }

  datatype BatchKind = Prove | Production

  datatype BatchStatus = Planned | Running | Complete

  datatype Color = Green | Amber | Red | Blue | Violet | Teal | Grey

  datatype DocSnapshot = DocSnapshot(itemId: string, name: string, versionId: string, versionNumber: int)

  datatype PlanDoc = PlanDoc(id: Id, doc: DocSnapshot, addedBy: string)

  datatype Placeholder = Placeholder(id: Id, caption: string, kind: string, required: bool)

  datatype DecisionResult = DecisionResult(id: Id, caption: string, color: Color)

  datatype Edge = Edge(id: Id, from: Id, fromResult: Id, to: Id)

  datatype Fulfillment = Fulfillment(id: Id, stepId: Id, placeholderId: Id, doc: DocSnapshot,
                                     source: string, isAsRun: bool, suppliedBy: string)

  datatype StepHead = StepHead(id: Id, kind: StepKind, num: int, title: string, description: string, x: real, y: real)

  datatype StepV = StepV(head: StepHead, results: seq<DecisionResult>, planDocs: seq<PlanDoc>,
                         placeholders: seq<Placeholder>)

  /** One frozen step of a batch. */
  datatype FrozenV = FrozenV(stepId: Id, kind: StepKind, num: int, title: string,
                             planDocs: seq<PlanDoc>, placeholders: seq<Placeholder>)

  datatype BatchHead = BatchHead(id: Id, num: int, name: string, kind: BatchKind, runAt: int,
                                 status: BatchStatus, createdBy: string)

  datatype BatchV = BatchV(head: BatchHead, steps: seq<FrozenV>, fulfillments: seq<Fulfillment>,
                           refs: seq<string>, hidden: seq<Id>)

  datatype JobHead = JobHead(id: Id, num: int, name: string, description: string, createdBy: string)

  datatype JobV = JobV(head: JobHead, steps: seq<StepV>, edges: seq<Edge>, batches: seq<BatchV>,
                       nextStep: int, nextBatch: int, nextChild: int)

  datatype ProjectV = ProjectV(hubId: string, name: string, nextJob: int, jobs: seq<JobV>)

  const MAX_JOBS := 500
  const MAX_STEPS := 200
  const MAX_EDGES := 400
  const MAX_BATCHES := 500
  const MAX_PLAN_DOCS := 50
  const MAX_PLACEHOLDERS := 50
  const MAX_RESULTS := 12
  const MAX_FULFILLMENTS := 1000
  const MAX_REFS := 50

  // What the lookups compare.
  function StepKey(s: StepV): Id { s.head.id }
  function EdgeKey(e: Edge): Id { e.id }
  function PlanDocKey(d: PlanDoc): Id { d.id }
  function PlaceholderKey(p: Placeholder): Id { p.id }
  function ResultKey(r: DecisionResult): Id { r.id }
  function BatchKey(b: BatchV): Id { b.head.id }
  function FrozenKey(s: FrozenV): Id { s.stepId }
  function FulfillmentKey(f: Fulfillment): Id { f.id }
  function JobKey(j: JobV): Id { j.head.id }

  // ---- identifiers as text ----

  function Prefix(k: IdKind): string {
    match k
    case JobId => "j"
    case StepId => "s"
    case EdgeId => "e"
    case PlanDocId => "pd"
    case PlaceholderId => "ph"
    case ResultId => "dr"
    case BatchId => "b"
    case FulfillmentId => "f"
  }

  /** The text of an identifier the store formats: fmt.Sprintf("e%d", n). */
  function MintedText(k: IdKind, n: nat): string { Prefix(k) + Decimal(n) }

  /** The texts as the store writes them. */
  lemma MintedTexts()
    ensures MintedText(JobId, 10) == "j10" && MintedText(StepId, 2) == "s2" && MintedText(EdgeId, 305) == "e305"
    ensures MintedText(PlanDocId, 4) == "pd4" && MintedText(PlaceholderId, 5) == "ph5"
    ensures MintedText(ResultId, 6) == "dr6" && MintedText(BatchId, 7) == "b7" && MintedText(FulfillmentId, 98) == "f98"
  {
    assert Decimal(305) == Decimal(30) + "5" && Decimal(30) == "30";
  }

  /** Formatting a counter never produces the same text twice, whatever the
      prefix, so treating a minted id as its (kind, number) pair loses nothing. */
  lemma MintedTextInjective(k: IdKind, m: nat, l: IdKind, n: nat)
    ensures MintedText(k, m) == MintedText(l, n) <==> k == l && m == n
    ensures MintedText(k, m) != ""
  {
    var a, b := MintedText(k, m), MintedText(l, n);
    assert a[|Prefix(k)|..] == Decimal(m) && b[|Prefix(l)|..] == Decimal(n);
    assert a[0] == Prefix(k)[0] && b[0] == Prefix(l)[0];
    if a == b {
      if |Prefix(k)| == 2 { assert a[1] == Prefix(k)[1]; } else { assert a[1] == Decimal(m)[0]; }
      if |Prefix(l)| == 2 { assert b[1] == Prefix(l)[1]; } else { assert b[1] == Decimal(n)[0]; }
      DecimalInjective(m, n);
    }
  }
}

/** The ledger as a state machine: every use case is a step, and a run is any sequence of steps. */
module Machine {
  import opened Wrappers
  import opened Ledger
  import opened Database
  import opened Commands
  import R = Reconciliation

  datatype Step =
    | Delivery(call: Call, injected: bool, lost: bool)
    | Completing(completion: R.Completion, injected: bool, lost: bool)
    | Cataloguing(use: CatalogUse)
    | DraftCreation(draft: TxId, request: DraftRequest)
    | DraftUpdate(draft: TxId, request: DraftRequest)
    | DraftDiscarding(space: SpaceId, draft: TxId)

  // A refused step leaves the committed database as it was.
  function Committed(db: Database, r: Result<Database>): Database {
    if r.Ok? then r.value else db
  }

  ghost function Apply(db: Database, s: Step): Database {
    match s
    case Delivery(call, injected, lost) => Deliver(db, call, injected, lost)
    case Completing(completion, injected, lost) => R.Complete(db, completion, injected, lost)
    case Cataloguing(use) => Committed(db, UseCatalog(db, use))
    case DraftCreation(id, request) => Committed(db, CreateDraft(db, id, request))
    case DraftUpdate(id, request) => Committed(db, UpdateDraft(db, id, request))
    case DraftDiscarding(space, id) => Committed(db, DiscardDraft(db, space, id))
  }

  ghost function Run(db: Database, steps: seq<Step>): Database
    decreases |steps|
  {
    if steps == [] then db else Run(Apply(db, steps[0]), steps[1..])
  }
}

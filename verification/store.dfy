/** The relational store and the image host that the plant server actions work on, abstracted
    to immutable values: the `plants`, `qr_codes`, `ratings` and `administrators` tables, the
    set of image hashes the image host still serves, and an ordered trace of every side effect
    the actions perform. */
module Store {
  import opened Wrappers

  /** Store-generated row ids and auth-provider user ids (UUIDs in the database). */
  type Id = string

  /** A `timestamptz` value, abstracted to an integer clock reading. */
  type Timestamp = int

  /** A row of the `plants` table. `commonNames` is the list the action serialised with
      JSON.stringify; the serialisation is injective, so the model keeps the list itself. */
  datatype Plant = Plant(
    scientificName: string,
    commonNames: seq<string>,
    description: string,
    photoLink: string,
    imgurHash: string,
    userId: Id,
    createdAt: Timestamp,
    lastModified: Option<Timestamp>)

  /** A row of the `qr_codes` table. */
  datatype QrRow = QrRow(qrId: Id, plantId: Id, qrImage: string, qrDestination: string, imgurHash: string)

  /** A row of the `ratings` table. */
  datatype RatingRow = RatingRow(ratingId: Id, plantId: Id, ratingValue: int)

  /** One observable side effect, in the order the actions perform them. */
  datatype Event =
    | PlantInserted(plantId: Id)
    | PlantUpdated(plantId: Id)
    | PlantDeleted(plantId: Id)
    | QrInserted(qrId: Id)
    | RatingInserted(ratingId: Id)
    | EditsWritten(adminId: Id)
    | ImageDeleteRequested(hash: string)
    | Revalidated(path: string)

  /** The whole world the actions can touch. `qrCodes` and `ratings` are kept in insertion
      order; a select without `order` may list rows in any order, so which row it lists first is
      left to the oracle. `edits` maps an administrator id to that administrator's edit counter.
      `host` holds the hashes the image host still serves. */
  datatype World = World(
    plants: map<Id, Plant>,
    qrCodes: seq<QrRow>,
    ratings: seq<RatingRow>,
    edits: map<Id, int>,
    host: set<string>,
    trace: seq<Event>)

  /** What the outside world decides during one action: whether each store call fails, which
      id the store generates for an inserted row, which of a plant's QR rows the unordered QR
      lookup lists first, what the image host answers to a delete request, and the clock. */
  datatype Oracle = Oracle(
    insertFails: bool,
    newRowId: Id,
    qrLookupFails: bool,
    qrListedFirst: nat,
    plantWriteFails: bool,
    adminReadFails: bool,
    adminWriteFails: bool,
    imageDeleteOk: bool,
    now: Timestamp)

  /** Why an action reported failure. */
  datatype ActionError = NotAuthenticated | StoreError | QrCodesNotFound

  /** The message text an action puts in its `error` field; store errors carry the database's
      own message, which the model does not track. */
  function Message(e: ActionError): string {
    match e
    case NotAuthenticated => "User not authenticated"
    case QrCodesNotFound => "QR codes not found for the given plant ID"
    case StoreError => "store error"
  }

  /** The envelope every action returns: `{success, error?, redirectUrl?, plantId?}`. */
  datatype Response = Response(
    success: bool,
    error: Option<ActionError>,
    redirectUrl: Option<string>,
    plantId: Option<Id>)

  function Failed(e: ActionError): (r: Response)
    ensures !r.success && r.error == Some(e) && r.redirectUrl.None?
  {
    Response(false, Some(e), None, None)
  }

  /** An action's answer together with the world it leaves behind. */
  datatype Step = Step(response: Response, world: World)

  const PlantsPath: string := "/plants"

  /** The detail page path of one plant, `/plant/{id}`. */
  function PlantPath(id: Id): string {
    "/plant/" + id
  }

  /** `w'` keeps `w`'s trace as a prefix: side effects are only ever appended. */
  predicate TraceExtends(w: World, w': World) {
    |w.trace| <= |w'.trace| && w'.trace[..|w.trace|] == w.trace
  }

  /** The events `w'` added on top of `w` (empty when `w'` did not extend `w`'s trace). */
  function NewEvents(w: World, w': World): seq<Event> {
    if |w.trace| <= |w'.trace| then w'.trace[|w.trace|..] else []
  }

  /** The paths an event sequence revalidates. */
  function Revalidations(events: seq<Event>): set<string> {
    set e | e in events && e.Revalidated? :: e.path
  }

  /** The hashes an event sequence asks the image host to delete. */
  function DeleteRequests(events: seq<Event>): set<string> {
    set e | e in events && e.ImageDeleteRequested? :: e.hash
  }

  lemma ViewsOfConcat(a: seq<Event>, b: seq<Event>)
    ensures Revalidations(a + b) == Revalidations(a) + Revalidations(b)
    ensures DeleteRequests(a + b) == DeleteRequests(a) + DeleteRequests(b)
  {
    assert forall e :: e in a + b <==> e in a || e in b;
  }

  /** `a` happens strictly before `b` in `events`. */
  predicate Before(events: seq<Event>, a: Event, b: Event) {
    |events| > 0 && ((events[0] == a && b in events[1..]) || Before(events[1..], a, b))
  }

  /** The QR rows of one plant, `select ... eq("plant_id", plantId)`, as a sequence in
      insertion order; the order the select lists them in is `ListedFirst`'s business. */
  function QrRowsOf(rows: seq<QrRow>, plantId: Id): (r: seq<QrRow>)
    ensures forall q | q in r :: q in rows && q.plantId == plantId
    ensures forall q | q in rows && q.plantId == plantId :: q in r
  {
    if |rows| == 0 then []
    else (if rows[0].plantId == plantId then [rows[0]] else []) + QrRowsOf(rows[1..], plantId)
  }

  /** The row a select without `order` lists first: one of the matching rows, chosen by `pick`. */
  function ListedFirst(rows: seq<QrRow>, pick: nat): (q: QrRow)
    requires |rows| > 0
    ensures q in rows
  {
    rows[pick % |rows|]
  }

  /** Any of the matching rows may be the one listed first. */
  lemma AnyRowMayBeListedFirst(rows: seq<QrRow>, i: nat)
    requires i < |rows|
    ensures ListedFirst(rows, i) == rows[i]
  {
  }

  predicate QrIdTaken(rows: seq<QrRow>, id: Id) {
    exists q | q in rows :: q.qrId == id
  }

  predicate RatingIdTaken(rows: seq<RatingRow>, id: Id) {
    exists r | r in rows :: r.ratingId == id
  }

  /** Only the tables flagged may differ between the two worlds; the image host and the trace
      are not constrained. */
  predicate TablesFramed(w: World, w': World, plants: bool, qr: bool, ratings: bool, edits: bool) {
    && (!plants ==> w'.plants == w.plants)
    && (!qr ==> w'.qrCodes == w.qrCodes)
    && (!ratings ==> w'.ratings == w.ratings)
    && (!edits ==> w'.edits == w.edits)
  }
}

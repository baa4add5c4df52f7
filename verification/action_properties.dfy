/** Properties of the server actions that are read off the effect trace (ordering, which
    pages are revalidated, which images are deleted) and invariants every action, and so every
    sequence of actions, preserves. */
module ActionProperties {
  import opened Wrappers
  import opened Store
  import opened Actions

  /** Any one of the server actions, with its arguments and the signed-in user. */
  datatype Action =
    | AddPlant(caller: Option<Id>, entry: Entry)
    | AddQr(caller: Option<Id>, qr: QrEntry)
    | DeletePlant(caller: Option<Id>, plantId: Id)
    | UpdatePlant(caller: Option<Id>, plantId: Id, oldHash: string, entry: Entry)
    | Rate(plantId: Id, value: int)

  function Apply(w: World, a: Action, o: Oracle): Step {
    match a
    case AddPlant(caller, entry) => AddEntry(w, caller, entry, o)
    case AddQr(caller, qr) => AddQrEntry(w, caller, qr, o)
    case DeletePlant(caller, id) => DeleteEntry(w, caller, id, o)
    case UpdatePlant(caller, id, oldHash, entry) => UpdateEntry(w, caller, id, oldHash, entry, o)
    case Rate(id, value) => AddRating(w, id, value, o)
  }

  /** Runs the actions one after another, each under its own oracle. */
  function Run(w: World, script: seq<(Action, Oracle)>): World
    decreases |script|
  {
    if |script| == 0 then w else Run(Apply(w, script[0].0, script[0].1).world, script[1..])
  }

  /** How many times `events` writes administrator `admin`'s edit counter. */
  function EditWrites(events: seq<Event>, admin: Id): nat {
    if |events| == 0 then 0
    else (if events[0] == EditsWritten(admin) then 1 else 0) + EditWrites(events[1..], admin)
  }

  lemma {:induction false} EditWritesConcat(a: seq<Event>, b: seq<Event>, admin: Id)
    ensures EditWrites(a + b, admin) == EditWrites(a, admin) + EditWrites(b, admin)
    decreases |a|
  {
    if |a| == 0 {
      assert a + b == b;
    } else {
      assert (a + b)[1..] == a[1..] + b;
      EditWritesConcat(a[1..], b, admin);
    }
  }

  lemma {:induction false} NoEditWrites(events: seq<Event>, admin: Id)
    requires forall e | e in events :: !e.EditsWritten?
    ensures EditWrites(events, admin) == 0
    decreases |events|
  {
    if |events| > 0 {
      assert events[0] in events;
      NoEditWrites(events[1..], admin);
    }
  }

  /** What no action ever undoes: the trace only grows; the image host only loses hashes, and
      only hashes that were asked to be deleted; rating and QR rows are only appended; the set
      of administrators is fixed and each edit counter grows by exactly the number of counter
      writes in the trace. */
  ghost predicate Evolves(w: World, w': World) {
    && TraceExtends(w, w')
    && w'.host <= w.host
    && w.host - w'.host <= DeleteRequests(NewEvents(w, w'))
    && |w.ratings| <= |w'.ratings| && w'.ratings[..|w.ratings|] == w.ratings
    && |w.qrCodes| <= |w'.qrCodes| && w'.qrCodes[..|w.qrCodes|] == w.qrCodes
    && w'.edits.Keys == w.edits.Keys
    && (forall a | a in w.edits :: w'.edits[a] == w.edits[a] + EditWrites(NewEvents(w, w'), a))
  }

  /** A successful delete asks for the image of the QR row the lookup listed first to be
      deleted before the plant row is deleted, deletes no other image, keeps every QR row, and
      revalidates only `/plants`. */
  lemma DeleteOrdersImageBeforeRow(w: World, caller: Option<Id>, plantId: Id, o: Oracle)
    requires DeleteEntry(w, caller, plantId, o).response.success
    ensures |QrRowsOf(w.qrCodes, plantId)| > 0
    ensures
      var s := DeleteEntry(w, caller, plantId, o);
      var evs := NewEvents(w, s.world);
      var hash := ListedFirst(QrRowsOf(w.qrCodes, plantId), o.qrListedFirst).imgurHash;
      && Before(evs, ImageDeleteRequested(hash), PlantDeleted(plantId))
      && DeleteRequests(evs) == {hash}
      && Revalidations(evs) == {PlantsPath}
      && s.world.qrCodes == w.qrCodes
  {
    var s := DeleteEntry(w, caller, plantId, o);
    var evs := NewEvents(w, s.world);
    assert evs[1..] == [PlantDeleted(plantId), Revalidated(PlantsPath)];
  }

  lemma UpdateTrailDeletes(admin: Id, plantId: Id, oldHash: string, image: bool, counted: bool)
    ensures
      var evs := UpdateTrail(admin, plantId, oldHash, image, counted);
      && DeleteRequests(evs) == (if image then {oldHash} else {})
      && (image ==> Before(evs, PlantUpdated(plantId), ImageDeleteRequested(oldHash)))
  {
    var evs := UpdateTrail(admin, plantId, oldHash, image, counted);
    var c := if counted then [EditsWritten(admin), Revalidated(PlantPath(plantId)), Revalidated(PlantsPath)] else [];
    assert forall x | x in c :: !x.ImageDeleteRequested?;
    if image {
      assert evs == [PlantUpdated(plantId), ImageDeleteRequested(oldHash)] + c;
      assert evs[1..] == [ImageDeleteRequested(oldHash)] + c;
      ViewsOfConcat([PlantUpdated(plantId), ImageDeleteRequested(oldHash)], c);
    } else {
      assert evs == [PlantUpdated(plantId)] + c;
      ViewsOfConcat([PlantUpdated(plantId)], c);
    }
  }

  lemma UpdateTrailRevalidations(admin: Id, plantId: Id, oldHash: string, image: bool, counted: bool)
    ensures
      Revalidations(UpdateTrail(admin, plantId, oldHash, image, counted))
      == if counted then {PlantPath(plantId), PlantsPath} else {}
  {
    var evs := UpdateTrail(admin, plantId, oldHash, image, counted);
    var ab := [PlantUpdated(plantId)] + (if image then [ImageDeleteRequested(oldHash)] else []);
    var c := if counted then [EditsWritten(admin), Revalidated(PlantPath(plantId)), Revalidated(PlantsPath)] else [];
    assert evs == ab + c;
    assert forall x | x in ab :: !x.Revalidated?;
    ViewsOfConcat(ab, c);
  }

  lemma UpdateTrailEditWrites(admin: Id, plantId: Id, oldHash: string, image: bool, counted: bool, a: Id)
    ensures
      EditWrites(UpdateTrail(admin, plantId, oldHash, image, counted), a)
      == if counted && a == admin then 1 else 0
  {
    var evs := UpdateTrail(admin, plantId, oldHash, image, counted);
    var ab := [PlantUpdated(plantId)] + (if image then [ImageDeleteRequested(oldHash)] else []);
    var rv := [Revalidated(PlantPath(plantId)), Revalidated(PlantsPath)];
    NoEditWrites(ab, a);
    NoEditWrites(rv, a);
    if counted {
      assert evs == ab + ([EditsWritten(admin)] + rv);
      EditWritesConcat(ab, [EditsWritten(admin)] + rv, a);
      assert ([EditsWritten(admin)] + rv)[1..] == rv;
    } else {
      assert evs == ab;
    }
  }

  /** An edit carrying a new image asks the image host to delete the old hash, and nothing
      else, only after the plant row write went through. */
  lemma UpdateDeletesOldImageAfterWrite(
    w: World, admin: Id, plantId: Id, oldHash: string, e: Entry, o: Oracle)
    requires !o.plantWriteFails && CarriesImage(e)
    ensures
      var evs := NewEvents(w, UpdateEntry(w, Some(admin), plantId, oldHash, e, o).world);
      && Before(evs, PlantUpdated(plantId), ImageDeleteRequested(oldHash))
      && DeleteRequests(evs) == {oldHash}
  {
    var s := UpdateEntry(w, Some(admin), plantId, oldHash, e, o);
    assert NewEvents(w, s.world) == UpdateTrail(admin, plantId, oldHash, true, s.response.success);
    UpdateTrailDeletes(admin, plantId, oldHash, true, s.response.success);
  }

  /** An edit without a new image, or whose row write failed, asks for no image deletion and
      leaves the image host alone. */
  lemma UpdateWithoutImageDeletesNothing(
    w: World, caller: Option<Id>, plantId: Id, oldHash: string, e: Entry, o: Oracle)
    requires caller.None? || o.plantWriteFails || !CarriesImage(e)
    ensures
      var s := UpdateEntry(w, caller, plantId, oldHash, e, o);
      && DeleteRequests(NewEvents(w, s.world)) == {}
      && s.world.host == w.host
  {
    var s := UpdateEntry(w, caller, plantId, oldHash, e, o);
    if caller.Some? && !o.plantWriteFails {
      assert NewEvents(w, s.world) == UpdateTrail(caller.value, plantId, oldHash, false, s.response.success);
      UpdateTrailDeletes(caller.value, plantId, oldHash, false, s.response.success);
    } else {
      assert NewEvents(w, s.world) == [];
    }
  }

  /** After a successful edit exactly the detail page and the listing are revalidated; after a
      failed one nothing is. */
  lemma UpdateRevalidations(w: World, caller: Option<Id>, plantId: Id, oldHash: string, e: Entry, o: Oracle)
    ensures
      var s := UpdateEntry(w, caller, plantId, oldHash, e, o);
      Revalidations(NewEvents(w, s.world)) == if s.response.success then {PlantPath(plantId), PlantsPath} else {}
  {
    var s := UpdateEntry(w, caller, plantId, oldHash, e, o);
    if caller.Some? && !o.plantWriteFails {
      assert NewEvents(w, s.world) == UpdateTrail(caller.value, plantId, oldHash, CarriesImage(e), s.response.success);
      UpdateTrailRevalidations(caller.value, plantId, oldHash, CarriesImage(e), s.response.success);
    } else {
      assert NewEvents(w, s.world) == [];
    }
  }

  /** A successful insert revalidates only `/plants` and deletes no image. */
  lemma AddEntryRevalidatesListing(w: World, caller: Option<Id>, entry: Entry, o: Oracle)
    requires AddEntry(w, caller, entry, o).response.success
    ensures
      var evs := NewEvents(w, AddEntry(w, caller, entry, o).world);
      Revalidations(evs) == {PlantsPath} && DeleteRequests(evs) == {}
  {
  }

  /** The edit is split when the counter step fails: the plant row is already rewritten, the
      counter is not incremented, and the caller is told the action failed. */
  lemma UpdateSplitOutcome(w: World, admin: Id, plantId: Id, oldHash: string, e: Entry, o: Oracle)
    requires plantId in w.plants && !o.plantWriteFails
    requires o.adminReadFails || admin !in w.edits || o.adminWriteFails
    ensures
      var s := UpdateEntry(w, Some(admin), plantId, oldHash, e, o);
      && !s.response.success
      && s.world.plants[plantId] == Revise(w.plants[plantId], e, o.now)
      && s.world.edits == w.edits
  {
  }

  /** The image host's answer to a delete request never changes what the delete reports, nor
      any table: a negative answer does not abort the action. */
  lemma DeleteIgnoresImageVerdict(w: World, caller: Option<Id>, plantId: Id, o: Oracle)
    ensures
      var s := DeleteEntry(w, caller, plantId, o);
      var s' := DeleteEntry(w, caller, plantId, o.(imageDeleteOk := !o.imageDeleteOk));
      s.response == s'.response && TablesFramed(s.world, s'.world, false, false, false, false)
  {
  }

  /** Likewise for an edit: the host's answer about the old image changes neither the reply nor
      any table. */
  lemma UpdateIgnoresImageVerdict(w: World, caller: Option<Id>, plantId: Id, oldHash: string, e: Entry, o: Oracle)
    ensures
      var s := UpdateEntry(w, caller, plantId, oldHash, e, o);
      var s' := UpdateEntry(w, caller, plantId, oldHash, e, o.(imageDeleteOk := !o.imageDeleteOk));
      s.response == s'.response && TablesFramed(s.world, s'.world, false, false, false, false)
  {
  }

  /** Every action but rating refuses a caller who is not signed in, with the world unchanged. */
  lemma SignedOutIsRefused(w: World, a: Action, o: Oracle)
    requires !a.Rate? && a.caller.None?
    ensures Apply(w, a, o) == Step(Failed(NotAuthenticated), w)
    ensures Message(Apply(w, a, o).response.error.value) == "User not authenticated"
  {
  }

  /** Rating never needs a signed-in user, never range-checks, and never changes a plant row. */
  lemma RatingLeavesPlantsAlone(w: World, plantId: Id, value: int, o: Oracle)
    requires !o.insertFails && !RatingIdTaken(w.ratings, o.newRowId)
    ensures AddRating(w, plantId, value, o).response.success
    ensures AddRating(w, plantId, value, o).world.plants == w.plants
    ensures AddRating(w, plantId, value, o).world.ratings[|w.ratings|].ratingValue == value
  {
  }

  lemma EvolvesReflexive(w: World)
    ensures Evolves(w, w)
  {
    assert NewEvents(w, w) == [];
  }

  /** A trace extension that writes no edit counter keeps every counter equation. */
  lemma CountersKept(w: World, w': World)
    requires |w.trace| <= |w'.trace| && w'.trace[..|w.trace|] == w.trace
    requires w'.edits == w.edits
    requires forall e | e in NewEvents(w, w') :: !e.EditsWritten?
    ensures forall a | a in w.edits :: w'.edits[a] == w.edits[a] + EditWrites(NewEvents(w, w'), a)
  {
    forall a | a in w.edits
      ensures w'.edits[a] == w.edits[a] + EditWrites(NewEvents(w, w'), a)
    {
      NoEditWrites(NewEvents(w, w'), a);
    }
  }

  lemma AddEntryEvolves(w: World, caller: Option<Id>, entry: Entry, o: Oracle)
    ensures Evolves(w, AddEntry(w, caller, entry, o).world)
  {
    CountersKept(w, AddEntry(w, caller, entry, o).world);
  }

  lemma AddQrEntryEvolves(w: World, caller: Option<Id>, qr: QrEntry, o: Oracle)
    ensures Evolves(w, AddQrEntry(w, caller, qr, o).world)
  {
    CountersKept(w, AddQrEntry(w, caller, qr, o).world);
  }

  lemma AddRatingEvolves(w: World, plantId: Id, value: int, o: Oracle)
    ensures Evolves(w, AddRating(w, plantId, value, o).world)
  {
    CountersKept(w, AddRating(w, plantId, value, o).world);
  }

  lemma DeleteEntryEvolves(w: World, caller: Option<Id>, plantId: Id, o: Oracle)
    ensures Evolves(w, DeleteEntry(w, caller, plantId, o).world)
  {
    var w' := DeleteEntry(w, caller, plantId, o).world;
    CountersKept(w, w');
  }

  lemma UpdateEntryEvolves(w: World, caller: Option<Id>, plantId: Id, oldHash: string, e: Entry, o: Oracle)
    ensures Evolves(w, UpdateEntry(w, caller, plantId, oldHash, e, o).world)
  {
    var s := UpdateEntry(w, caller, plantId, oldHash, e, o);
    var w' := s.world;
    if caller.Some? && !o.plantWriteFails {
      var admin := caller.value;
      var evs := UpdateTrail(admin, plantId, oldHash, CarriesImage(e), s.response.success);
      assert NewEvents(w, w') == evs;
      UpdateTrailDeletes(admin, plantId, oldHash, CarriesImage(e), s.response.success);
      forall a | a in w.edits
        ensures w'.edits[a] == w.edits[a] + EditWrites(evs, a)
      {
        UpdateTrailEditWrites(admin, plantId, oldHash, CarriesImage(e), s.response.success, a);
      }
    } else {
      EvolvesReflexive(w);
    }
  }

  /** One action evolves the world. */
  lemma ApplyEvolves(w: World, a: Action, o: Oracle)
    ensures Evolves(w, Apply(w, a, o).world)
  {
    match a
    case AddPlant(caller, entry) => AddEntryEvolves(w, caller, entry, o);
    case AddQr(caller, qr) => AddQrEntryEvolves(w, caller, qr, o);
    case DeletePlant(caller, id) => DeleteEntryEvolves(w, caller, id, o);
    case UpdatePlant(caller, id, oldHash, entry) => UpdateEntryEvolves(w, caller, id, oldHash, entry, o);
    case Rate(id, value) => AddRatingEvolves(w, id, value, o);
  }

  lemma EvolvesTransitive(w1: World, w2: World, w3: World)
    requires Evolves(w1, w2) && Evolves(w2, w3)
    ensures Evolves(w1, w3)
  {
    var e12, e23 := NewEvents(w1, w2), NewEvents(w2, w3);
    assert TraceExtends(w1, w3) && NewEvents(w1, w3) == e12 + e23 by {
      assert w3.trace[..|w1.trace|] == w3.trace[..|w2.trace|][..|w1.trace|];
      assert w3.trace == w2.trace + e23;
      assert w2.trace == w1.trace + e12;
    }
    ViewsOfConcat(e12, e23);
    assert w1.ratings == w3.ratings[..|w1.ratings|] by {
      assert w3.ratings[..|w1.ratings|] == w3.ratings[..|w2.ratings|][..|w1.ratings|];
    }
    assert w1.qrCodes == w3.qrCodes[..|w1.qrCodes|] by {
      assert w3.qrCodes[..|w1.qrCodes|] == w3.qrCodes[..|w2.qrCodes|][..|w1.qrCodes|];
    }
    forall a | a in w1.edits
      ensures w3.edits[a] == w1.edits[a] + EditWrites(e12 + e23, a)
    {
      EditWritesConcat(e12, e23, a);
    }
  }

  /** Any run of actions evolves the world: in particular each administrator's edit counter ends
      at its initial value plus the counter writes for that administrator in the new events
      (`RunCountsSuccessfulEdits` ties those writes to successful edits). */
  lemma {:induction false} RunEvolves(w: World, script: seq<(Action, Oracle)>)
    ensures Evolves(w, Run(w, script))
    decreases |script|
  {
    if |script| == 0 {
      EvolvesReflexive(w);
    } else {
      var w1 := Apply(w, script[0].0, script[0].1).world;
      ApplyEvolves(w, script[0].0, script[0].1);
      RunEvolves(w1, script[1..]);
      EvolvesTransitive(w, w1, Run(w1, script[1..]));
    }
  }

  /** Whether action `a`, run on `w` under `o`, is a successful edit by administrator `admin`. */
  predicate SuccessfulEditBy(w: World, a: Action, o: Oracle, admin: Id) {
    a.UpdatePlant? && a.caller == Some(admin) && Apply(w, a, o).response.success
  }

  /** How many actions of `script`, run from `w`, are successful edits by `admin`. */
  function SuccessfulEdits(w: World, script: seq<(Action, Oracle)>, admin: Id): nat
    decreases |script|
  {
    if |script| == 0 then 0
    else
      (if SuccessfulEditBy(w, script[0].0, script[0].1, admin) then 1 else 0)
      + SuccessfulEdits(Apply(w, script[0].0, script[0].1).world, script[1..], admin)
  }

  /** One action moves an administrator's counter by one exactly when it is a successful edit by
      that administrator, and leaves it alone otherwise. */
  lemma ApplyCountsEdit(w: World, a: Action, o: Oracle, admin: Id)
    requires admin in w.edits
    ensures admin in Apply(w, a, o).world.edits
    ensures Apply(w, a, o).world.edits[admin]
      == w.edits[admin] + (if SuccessfulEditBy(w, a, o, admin) then 1 else 0)
  {
  }

  /** Each administrator's edit counter ends at its start value plus the number of successful
      edits that administrator made during the run. */
  lemma {:induction false} RunCountsSuccessfulEdits(w: World, script: seq<(Action, Oracle)>, admin: Id)
    requires admin in w.edits
    ensures admin in Run(w, script).edits
    ensures Run(w, script).edits[admin] == w.edits[admin] + SuccessfulEdits(w, script, admin)
    decreases |script|
  {
    if |script| > 0 {
      var w1 := Apply(w, script[0].0, script[0].1).world;
      ApplyCountsEdit(w, script[0].0, script[0].1, admin);
      RunCountsSuccessfulEdits(w1, script[1..], admin);
    }
  }
}

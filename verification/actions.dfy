/** The server actions of the plant catalogue, each a pure transition from the world, the
    signed-in user (if any), the action's arguments and an oracle for everything the outside
    world decides, to the result envelope and the world after the action. */
module Actions {
  import opened Wrappers
  import opened Store

  /** The data the add and edit forms send: `{scientificName, commonNames, plantDescription,
      imageLink, imageHash}`. */
  datatype Entry = Entry(
    scientificName: string,
    commonNames: seq<string>,
    description: string,
    imageLink: string,
    imageHash: string)

  /** The data the QR step sends: `{plantId, destination, qrLink, qrHash}`. */
  datatype QrEntry = QrEntry(plantId: Id, destination: string, qrLink: string, qrHash: string)

  /** An edit replaces the photo only when it carries both a new link and a new hash. */
  predicate CarriesImage(e: Entry) {
    e.imageLink != "" && e.imageHash != ""
  }

  /** `deleteImgurImage`: asks the image host to delete `hash`. The host's verdict is only
      logged: the call never fails, and a negative verdict leaves the host as it was. */
  function DeleteImage(w: World, hash: string, remoteOk: bool): (w': World)
    ensures TablesFramed(w, w', false, false, false, false)
    ensures TraceExtends(w, w')
    ensures NewEvents(w, w') == [ImageDeleteRequested(hash)]
    ensures w'.host <= w.host && w.host - w'.host <= {hash}
    ensures remoteOk ==> hash !in w'.host
    ensures !remoteOk ==> w'.host == w.host
  {
    w.(host := if remoteOk then w.host - {hash} else w.host,
       trace := w.trace + [ImageDeleteRequested(hash)])
  }

  /** `addSupabaseEntry`: inserts a plant row owned by the caller. */
  function AddEntry(w: World, caller: Option<Id>, entry: Entry, o: Oracle): (s: Step)
    ensures caller.None? ==> s == Step(Failed(NotAuthenticated), w)
    ensures s.response.success <==> caller.Some? && !o.insertFails && o.newRowId !in w.plants
    ensures !s.response.success ==> s.world == w && s.response.error.Some?
    ensures s.world.host == w.host && TablesFramed(w, s.world, true, false, false, false)
    ensures TraceExtends(w, s.world)
    ensures s.response.success ==>
      var id := o.newRowId;
      && id in s.world.plants
      && var p := s.world.plants[id];
      && s.response.error.None?
      && s.response.plantId == Some(id)
      && s.response.redirectUrl == Some(PlantPath(id))
      && id !in w.plants
      && s.world.plants.Keys == w.plants.Keys + {id}
      && (forall k | k in w.plants :: s.world.plants[k] == w.plants[k])
      && p.userId == caller.value
      && p.scientificName == entry.scientificName
      && p.commonNames == entry.commonNames
      && p.description == entry.description
      && p.photoLink == entry.imageLink
      && p.imgurHash == entry.imageHash
      && NewEvents(w, s.world) == [PlantInserted(id), Revalidated(PlantsPath)]
  {
    if caller.None? then Step(Failed(NotAuthenticated), w)
    else if o.insertFails || o.newRowId in w.plants then Step(Failed(StoreError), w)
    else
      var id := o.newRowId;
      var row := Plant(entry.scientificName, entry.commonNames, entry.description,
                       entry.imageLink, entry.imageHash, caller.value, o.now, None);
      var w' := w.(plants := w.plants[id := row],
                   trace := w.trace + [PlantInserted(id), Revalidated(PlantsPath)]);
      Step(Response(true, None, Some(PlantPath(id)), Some(id)), w')
  }

  /** `addSupabaseQREntry`: records the QR code image of a plant. The plant id is trusted, not
      looked up, and no page is revalidated. */
  function AddQrEntry(w: World, caller: Option<Id>, qr: QrEntry, o: Oracle): (s: Step)
    ensures caller.None? ==> s == Step(Failed(NotAuthenticated), w)
    ensures s.response.success <==> caller.Some? && !o.insertFails && !QrIdTaken(w.qrCodes, o.newRowId)
    ensures !s.response.success ==> s.world == w && s.response.error.Some?
    ensures s.response.redirectUrl.None? && s.response.plantId.None?
    ensures s.world.host == w.host && TablesFramed(w, s.world, false, true, false, false)
    ensures TraceExtends(w, s.world)
    ensures s.response.success ==>
      && s.response.error.None?
      && |s.world.qrCodes| == |w.qrCodes| + 1
      && s.world.qrCodes[..|w.qrCodes|] == w.qrCodes
      && s.world.qrCodes[|w.qrCodes|] == QrRow(o.newRowId, qr.plantId, qr.qrLink, qr.destination, qr.qrHash)
      && NewEvents(w, s.world) == [QrInserted(o.newRowId)]
  {
    if caller.None? then Step(Failed(NotAuthenticated), w)
    else if o.insertFails || QrIdTaken(w.qrCodes, o.newRowId) then Step(Failed(StoreError), w)
    else
      var row := QrRow(o.newRowId, qr.plantId, qr.qrLink, qr.destination, qr.qrHash);
      Step(Response(true, None, None, None),
           w.(qrCodes := w.qrCodes + [row], trace := w.trace + [QrInserted(o.newRowId)]))
  }

  /** `deleteSupabaseEntry`: deletes the image of the QR row the lookup lists first (any of the
      plant's QR rows, as the lookup is unordered), then the plant row. The QR row itself is left
      in place, and so is the plant's own photo on the image host. */
  function DeleteEntry(w: World, caller: Option<Id>, plantId: Id, o: Oracle): (s: Step)
    ensures caller.None? ==> s == Step(Failed(NotAuthenticated), w)
    ensures s.response.success <==>
      caller.Some? && !o.qrLookupFails && |QrRowsOf(w.qrCodes, plantId)| > 0 && !o.plantWriteFails
    ensures caller.Some? && !o.qrLookupFails && |QrRowsOf(w.qrCodes, plantId)| == 0 ==>
      && s == Step(Failed(QrCodesNotFound), w)
      && Message(s.response.error.value) == "QR codes not found for the given plant ID"
    ensures s.response.success <==> s.response.error.None?
    ensures s.response.redirectUrl.None? && s.response.plantId.None?
    ensures caller.Some? && o.qrLookupFails ==> s == Step(Failed(StoreError), w)
    ensures TablesFramed(w, s.world, true, false, false, false)
    ensures TraceExtends(w, s.world)
    ensures s.world.plants == w.plants || s.world.plants == w.plants - {plantId}
    ensures caller.Some? && !o.qrLookupFails && |QrRowsOf(w.qrCodes, plantId)| > 0 ==>
      var first := ListedFirst(QrRowsOf(w.qrCodes, plantId), o.qrListedFirst);
      && first in w.qrCodes && first.plantId == plantId
      && (o.imageDeleteOk ==> first.imgurHash !in s.world.host)
      && s.world.host == DeleteImage(w, first.imgurHash, o.imageDeleteOk).host
      && (s.response.success ==>
            && plantId !in s.world.plants
            && s.world.plants == w.plants - {plantId}
            && NewEvents(w, s.world) == [ImageDeleteRequested(first.imgurHash), PlantDeleted(plantId), Revalidated(PlantsPath)])
      && (!s.response.success ==>
            && s.world.plants == w.plants
            && NewEvents(w, s.world) == [ImageDeleteRequested(first.imgurHash)])
  {
    if caller.None? then Step(Failed(NotAuthenticated), w)
    else if o.qrLookupFails then Step(Failed(StoreError), w)
    else
      var rows := QrRowsOf(w.qrCodes, plantId);
      if |rows| == 0 then Step(Failed(QrCodesNotFound), w)
      else
        var w1 := DeleteImage(w, ListedFirst(rows, o.qrListedFirst).imgurHash, o.imageDeleteOk);
        if o.plantWriteFails then Step(Failed(StoreError), w1)
        else
          var w2 := w1.(plants := w1.plants - {plantId},
                        trace := w1.trace + [PlantDeleted(plantId), Revalidated(PlantsPath)]);
          Step(Response(true, None, None, None), w2)
  }

  /** The row an edit writes: name, common names, description and modification time always,
      photo link and hash only when the edit carries a new image. */
  function Revise(p: Plant, e: Entry, now: Timestamp): (q: Plant)
    ensures q.scientificName == e.scientificName && q.commonNames == e.commonNames
    ensures q.description == e.description && q.lastModified == Some(now)
    ensures q.userId == p.userId && q.createdAt == p.createdAt
    ensures CarriesImage(e) ==> q.photoLink == e.imageLink && q.imgurHash == e.imageHash
    ensures !CarriesImage(e) ==> q.photoLink == p.photoLink && q.imgurHash == p.imgurHash
  {
    var q := p.(scientificName := e.scientificName, commonNames := e.commonNames,
                description := e.description, lastModified := Some(now));
    if CarriesImage(e) then q.(photoLink := e.imageLink, imgurHash := e.imageHash) else q
  }

  /** The events an edit leaves behind: the row write, the delete request for the old image
      when a new one came with the edit and, when the counter write went through, the counter
      write and the revalidation of the detail page and the listing. */
  function UpdateTrail(admin: Id, plantId: Id, oldHash: string, image: bool, counted: bool): (evs: seq<Event>)
    ensures |evs| == 1 + (if image then 1 else 0) + (if counted then 3 else 0)
    ensures evs[0] == PlantUpdated(plantId)
  {
    [PlantUpdated(plantId)] + (if image then [ImageDeleteRequested(oldHash)] else [])
    + (if counted then [EditsWritten(admin), Revalidated(PlantPath(plantId)), Revalidated(PlantsPath)] else [])
  }

  /** The first half of `updateSupabaseEntry`: the plant row write and, with a new image, the
      delete request for the old one. */
  function WriteRow(w: World, plantId: Id, oldHash: string, e: Entry, o: Oracle): (w': World)
    ensures TablesFramed(w, w', true, false, false, false)
    ensures w'.plants.Keys == w.plants.Keys
    ensures forall k | k in w.plants && k != plantId :: w'.plants[k] == w.plants[k]
    ensures plantId in w.plants ==> w'.plants[plantId] == Revise(w.plants[plantId], e, o.now)
    ensures w'.host == (if CarriesImage(e) then DeleteImage(w, oldHash, o.imageDeleteOk).host else w.host)
    ensures TraceExtends(w, w')
    ensures forall admin :: NewEvents(w, w') == UpdateTrail(admin, plantId, oldHash, CarriesImage(e), false)
  {
    var plants' := if plantId in w.plants then w.plants[plantId := Revise(w.plants[plantId], e, o.now)] else w.plants;
    var w0 := w.(plants := plants', trace := w.trace + [PlantUpdated(plantId)]);
    var w1 := if CarriesImage(e) then DeleteImage(w0, oldHash, o.imageDeleteOk) else w0;
    assert NewEvents(w, w1) == [PlantUpdated(plantId)] + (if CarriesImage(e) then [ImageDeleteRequested(oldHash)] else []);
    w1
  }

  /** `updateSupabaseEntry`: writes the plant row, then (with a new image) asks the host to
      delete the old one, then increments the caller's edit counter. A failure after the row
      write leaves the row written. */
  function UpdateEntry(w: World, caller: Option<Id>, plantId: Id, oldHash: string, e: Entry, o: Oracle): (s: Step)
    ensures caller.None? ==> s == Step(Failed(NotAuthenticated), w)
    ensures caller.Some? && o.plantWriteFails ==> s == Step(Failed(StoreError), w)
    ensures s.response.success <==>
      && caller.Some? && !o.plantWriteFails
      && !o.adminReadFails && caller.value in w.edits && !o.adminWriteFails
    ensures s.response.success <==> s.response.error.None?
    ensures s.response.plantId.None?
    ensures TablesFramed(w, s.world, true, false, false, true)
    ensures TraceExtends(w, s.world)
    ensures s.world.plants.Keys == w.plants.Keys
    ensures forall k | k in w.plants && k != plantId :: s.world.plants[k] == w.plants[k]
    ensures caller.Some? && !o.plantWriteFails ==>
      && (plantId in w.plants ==> s.world.plants[plantId] == Revise(w.plants[plantId], e, o.now))
      && s.world.host == (if CarriesImage(e) then DeleteImage(w, oldHash, o.imageDeleteOk).host else w.host)
      && NewEvents(w, s.world) == UpdateTrail(caller.value, plantId, oldHash, CarriesImage(e), s.response.success)
    ensures s.response.success ==>
      && s.world.edits == w.edits[caller.value := w.edits[caller.value] + 1]
      && s.response.redirectUrl == Some(PlantPath(plantId))
    ensures !s.response.success ==> s.world.edits == w.edits && s.response.redirectUrl.None?
  {
    if caller.None? then Step(Failed(NotAuthenticated), w)
    else if o.plantWriteFails then Step(Failed(StoreError), w)
    else
      var admin := caller.value;
      var w1 := WriteRow(w, plantId, oldHash, e, o);
      var written := UpdateTrail(admin, plantId, oldHash, CarriesImage(e), false);
      assert NewEvents(w, w1) == written;
      if o.adminReadFails || admin !in w1.edits || o.adminWriteFails then Step(Failed(StoreError), w1)
      else
        var tail := [EditsWritten(admin), Revalidated(PlantPath(plantId)), Revalidated(PlantsPath)];
        var w2 := w1.(edits := w1.edits[admin := w1.edits[admin] + 1], trace := w1.trace + tail);
        assert NewEvents(w, w2) == written + tail;
        Step(Response(true, None, Some(PlantPath(plantId)), None), w2)
  }

  /** `addSupabaseRating`: appends a rating row. No sign-in is needed and the value is not
      range-checked. */
  function AddRating(w: World, plantId: Id, value: int, o: Oracle): (s: Step)
    ensures s.response.success <==> !o.insertFails && !RatingIdTaken(w.ratings, o.newRowId)
    ensures s.response.success <==> s.response.error.None?
    ensures !s.response.success ==> s.world == w
    ensures s.response.redirectUrl.None? && s.response.plantId.None?
    ensures s.world.host == w.host && TablesFramed(w, s.world, false, false, true, false)
    ensures TraceExtends(w, s.world)
    ensures s.response.success ==>
      && s.world.ratings == w.ratings + [RatingRow(o.newRowId, plantId, value)]
      && NewEvents(w, s.world) == [RatingInserted(o.newRowId), Revalidated(PlantPath(plantId))]
  {
    if o.insertFails || RatingIdTaken(w.ratings, o.newRowId) then Step(Failed(StoreError), w)
    else
      Step(Response(true, None, None, None),
           w.(ratings := w.ratings + [RatingRow(o.newRowId, plantId, value)],
              trace := w.trace + [RatingInserted(o.newRowId), Revalidated(PlantPath(plantId))]))
  }
}

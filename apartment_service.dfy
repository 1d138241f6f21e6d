/** ApartmentService: status updates, deletion, the status queries and counts,
    and the image bookkeeping around saving, updating and deleting an apartment.

    ImageStorageService is not part of this model: its two operations are
    recorded as calls in an ImageStorage object, and the URL storeImage hands
    back, or its failure with an IOException, is a parameter. An upload is
    `Option<seq<bv8>>`: None is a missing file, an empty sequence an empty one. */
module ApartmentService {
  import opened Common
  import opened Apartments
  import opened Repository

  const UploadsPrefix := "/uploads/"

  datatype ImageCall = Stored(url: string) | Deleted(url: string)

  /** storeImage threw an IOException. */
  datatype UploadError = UploadFailed

  /** The image service, observed through the calls made to it. */
  class ImageStorage {
    var calls: seq<ImageCall>

    constructor ()
      ensures calls == []
    {
      calls := [];
    }

    /** storeImage, returning the URL the service chose. */
    method StoreImage(url: string) returns (r: string)
      modifies this
      ensures r == url && calls == old(calls) + [Stored(url)]
    {
      calls := calls + [Stored(url)];
      r := url;
    }

    method DeleteImage(url: string)
      modifies this
      ensures calls == old(calls) + [Deleted(url)]
    {
      calls := calls + [Deleted(url)];
    }
  }

  /** An image URL the application stored itself, and so may delete. */
  predicate IsUploaded(url: Option<string>)
  {
    url.Some? && StartsWith(url.value, UploadsPrefix)
  }

  /** imageFile != null && !imageFile.isEmpty() */
  predicate HasContent(file: Option<seq<bv8>>)
  {
    file.Some? && |file.value| > 0
  }

  /** The invariant the three image operations keep: the only images ever
      deleted are uploaded ones. */
  ghost predicate OnlyUploadsDeleted(calls: seq<ImageCall>)
  {
    forall i :: 0 <= i < |calls| && calls[i].Deleted? ==> StartsWith(calls[i].url, UploadsPrefix)
  }

  /** The calls deleting an apartment's image makes: one deletion, and only for
      an uploaded image. */
  function ImageCleanup(url: Option<string>): (r: seq<ImageCall>)
    ensures |r| <= 1
    ensures OnlyUploadsDeleted(r)
    ensures r != [] <==> IsUploaded(url)
    ensures IsUploaded(url) ==> r == [Deleted(url.value)]
  {
    if IsUploaded(url) then [Deleted(url.value)] else []
  }

  lemma OnlyUploadsDeletedAppend(calls: seq<ImageCall>, more: seq<ImageCall>)
    requires OnlyUploadsDeleted(calls) && OnlyUploadsDeleted(more)
    ensures OnlyUploadsDeleted(calls + more)
  {
    forall i | 0 <= i < |calls + more| && (calls + more)[i].Deleted?
      ensures StartsWith((calls + more)[i].url, UploadsPrefix)
    {
      if i >= |calls| {
        assert (calls + more)[i] == more[i - |calls|];
      }
    }
  }

  // ---------------------------------------------------------------------
  // Queries and counts

  function IdsWithStatus(apartments: map<nat, ApartmentRow>, status: ApartmentStatus): (r: set<nat>)
    ensures forall id :: id in r <==> id in apartments && apartments[id].status == status
  {
    set id | id in apartments && apartments[id].status == status
  }

  /** findAvailableApartments: the apartments whose status is AVAILABLE. */
  function FindAvailableApartments(apartments: map<nat, ApartmentRow>): (r: set<nat>)
    ensures forall id :: id in r <==> id in apartments && IsAvailable(apartments[id])
  {
    IdsWithStatus(apartments, Available)
  }

  /** countApartmentsByStatus: the number of stored apartments with that
      status; zero exactly when none has it. */
  function CountApartmentsByStatus(apartments: map<nat, ApartmentRow>, status: ApartmentStatus): (r: nat)
    ensures r <= |apartments|
    ensures r == 0 <==> forall id :: id in apartments ==> apartments[id].status != status
  {
    var ids := IdsWithStatus(apartments, status);
    SubsetSize(ids, apartments.Keys);
    assert ids == {} <==> forall id :: id in apartments ==> apartments[id].status != status;
    |ids|
  }

  /** getTotalApartments */
  function TotalApartments(apartments: map<nat, ApartmentRow>): (r: nat)
  {
    |apartments|
  }

  function AvailableApartmentsCount(apartments: map<nat, ApartmentRow>): (r: nat)
  {
    CountApartmentsByStatus(apartments, Available)
  }

  function SoldApartmentsCount(apartments: map<nat, ApartmentRow>): (r: nat)
  {
    CountApartmentsByStatus(apartments, Sold)
  }

  function UnderContractApartmentsCount(apartments: map<nat, ApartmentRow>): (r: nat)
  {
    CountApartmentsByStatus(apartments, UnderContract)
  }

  /** The available count on the dashboard is the size of the list the
      listing page shows, and the three status counts add up to the total. */
  lemma StatusCountsPartition(apartments: map<nat, ApartmentRow>)
    ensures AvailableApartmentsCount(apartments) == |FindAvailableApartments(apartments)|
    ensures AvailableApartmentsCount(apartments) + UnderContractApartmentsCount(apartments)
      + SoldApartmentsCount(apartments) == TotalApartments(apartments)
  {
    var av := IdsWithStatus(apartments, Available);
    var uc := IdsWithStatus(apartments, UnderContract);
    var so := IdsWithStatus(apartments, Sold);
    DisjointUnionSize(av, uc);
    DisjointUnionSize(av + uc, so);
    assert av + uc + so == apartments.Keys by {
      forall id | id in apartments
        ensures id in av + uc + so
      {
        ExactlyOneStatus(apartments[id]);
      }
    }
  }

  // ---------------------------------------------------------------------
  // Status updates

  /** The apartments after updateApartmentStatus(id, status): any current
      status may become any other; an unknown id changes nothing. */
  function WithStatus(apartments: map<nat, ApartmentRow>, id: nat, status: ApartmentStatus): (r: map<nat, ApartmentRow>)
    ensures r.Keys == apartments.Keys
    ensures forall j :: j in apartments && j != id ==> r[j] == apartments[j]
    ensures id in apartments ==> r[id] == apartments[id].(status := status)
  {
    if id in apartments then apartments[id := apartments[id].(status := status)] else apartments
  }

  /** A status change moves exactly that apartment from its old status's list
      to the new one's; the other lists stay as they were. */
  lemma WithStatusMovesOne(apartments: map<nat, ApartmentRow>, id: nat, status: ApartmentStatus, s: ApartmentStatus)
    requires id in apartments && apartments[id].status != status
    ensures IdsWithStatus(WithStatus(apartments, id, status), s) ==
      if s == status then IdsWithStatus(apartments, s) + {id}
      else if s == apartments[id].status then IdsWithStatus(apartments, s) - {id}
      else IdsWithStatus(apartments, s)
  {
    var updated := WithStatus(apartments, id, status);
    var after := IdsWithStatus(updated, s);
    var before := IdsWithStatus(apartments, s);
    forall j
      ensures j in after <==> (j in before && j != id) || (j == id && s == status)
    {
      if j == id {
        assert updated[id].status == status;
      }
    }
  }

  /** The dashboard counts after a status change: one more under the new
      status, one fewer under the old one, the same elsewhere. */
  lemma WithStatusCounts(apartments: map<nat, ApartmentRow>, id: nat, status: ApartmentStatus, s: ApartmentStatus)
    requires id in apartments && apartments[id].status != status
    ensures CountApartmentsByStatus(WithStatus(apartments, id, status), s) ==
      if s == status then CountApartmentsByStatus(apartments, s) + 1
      else if s == apartments[id].status then CountApartmentsByStatus(apartments, s) - 1
      else CountApartmentsByStatus(apartments, s)
    ensures TotalApartments(WithStatus(apartments, id, status)) == TotalApartments(apartments)
  {
    WithStatusMovesOne(apartments, id, status, s);
    var before := IdsWithStatus(apartments, s);
    if s == status {
      assert id !in before;
    } else if s == apartments[id].status {
      assert id in before;
      assert before == (before - {id}) + {id};
    }
  }

  /** updateApartmentStatus */
  method UpdateApartmentStatus(store: Store, id: nat, status: ApartmentStatus)
    requires store.Valid()
    modifies store
    ensures store.Valid()
    ensures store.apartments == WithStatus(old(store.apartments), id, status)
    ensures store.users == old(store.users) && store.parkings == old(store.parkings)
  {
    if id in store.apartments {
      var apartment := store.apartments[id].(status := status);
      var _ := store.SaveApartmentRow(Some(id), apartment);
    }
  }

  /** deleteApartment */
  method DeleteApartment(store: Store, id: nat)
    requires store.Valid()
    modifies store
    ensures store.Valid()
    ensures store.apartments == old(store.apartments) - {id}
    ensures store.users == old(store.users) && store.parkings == old(store.parkings)
  {
    store.DeleteApartmentRow(id);
  }

  // ---------------------------------------------------------------------
  // Saving with an image

  /** saveApartmentWithImage: with a non-empty file, stores the image (or fails
      with nothing saved) and points the apartment at it; then saves the
      apartment, giving a new one its id. Returns the apartment's id. */
  method SaveApartmentWithImage(store: Store, images: ImageStorage, apartment: Apartment,
                                imageFile: Option<seq<bv8>>, storedUrl: Option<string>)
    returns (r: Result<nat, UploadError>)
    requires store.Valid()
    modifies store, images, apartment
    ensures store.Valid()
    ensures store.users == old(store.users) && store.parkings == old(store.parkings)
    ensures HasContent(imageFile) && storedUrl.None? ==>
      r.Err? && unchanged(store) && unchanged(images) && unchanged(apartment)
    ensures r.Ok? ==>
      var row := if HasContent(imageFile) then old(apartment.Row()).(imageUrl := storedUrl)
                 else old(apartment.Row());
      && apartment.Row() == row
      && store.apartments == old(store.apartments)[r.value := row]
      && (old(apartment.id).Some? && old(apartment.id).value in old(store.apartments) ==> r.value == old(apartment.id).value)
      && (!(old(apartment.id).Some? && old(apartment.id).value in old(store.apartments)) ==>
            r.value !in old(store.apartments))
      && (old(apartment.id).None? ==> apartment.id == Some(r.value))
      && (old(apartment.id).Some? ==> apartment.id == old(apartment.id))
      && images.calls == old(images.calls) + (if HasContent(imageFile) then [Stored(storedUrl.value)] else [])
    ensures !(HasContent(imageFile) && storedUrl.None?) ==> r.Ok?
  {
    if HasContent(imageFile) {
      if storedUrl.None? {
        return Err(UploadFailed);
      }
      var imageUrl := images.StoreImage(storedUrl.value);
      apartment.SetImageUrl(Some(imageUrl));
    }
    var id := store.SaveApartmentRow(apartment.id, apartment.Row());
    if apartment.id.None? {
      apartment.SetId(Some(id));
    }
    r := Ok(id);
  }

  /** updateApartmentWithImage: with a non-empty file, first deletes the old
      image when it is an uploaded one, then stores the new image and points
      the apartment at it; then saves the apartment. When storing the new image
      fails, the old one is already gone while the saved row still names it. */
  method UpdateApartmentWithImage(store: Store, images: ImageStorage, apartment: Apartment,
                                  imageFile: Option<seq<bv8>>, storedUrl: Option<string>)
    returns (r: Result<nat, UploadError>)
    requires store.Valid()
    modifies store, images, apartment
    ensures store.Valid()
    ensures store.users == old(store.users) && store.parkings == old(store.parkings)
    ensures var cleanup := if HasContent(imageFile) then ImageCleanup(old(apartment.imageUrl)) else [];
      images.calls == old(images.calls) + cleanup + (if HasContent(imageFile) && storedUrl.Some? then [Stored(storedUrl.value)] else [])
    ensures HasContent(imageFile) && storedUrl.None? ==>
      r.Err? && unchanged(store) && unchanged(apartment)
    ensures r.Ok? ==>
      var row := if HasContent(imageFile) then old(apartment.Row()).(imageUrl := storedUrl)
                 else old(apartment.Row());
      && apartment.Row() == row
      && store.apartments == old(store.apartments)[r.value := row]
      && (old(apartment.id).Some? && old(apartment.id).value in old(store.apartments) ==> r.value == old(apartment.id).value)
      && (!(old(apartment.id).Some? && old(apartment.id).value in old(store.apartments)) ==>
            r.value !in old(store.apartments))
      && (old(apartment.id).None? ==> apartment.id == Some(r.value))
      && (old(apartment.id).Some? ==> apartment.id == old(apartment.id))
    ensures !(HasContent(imageFile) && storedUrl.None?) ==> r.Ok?
  {
    if HasContent(imageFile) {
      if IsUploaded(apartment.imageUrl) {
        images.DeleteImage(apartment.imageUrl.value);
      }
      if storedUrl.None? {
        return Err(UploadFailed);
      }
      var imageUrl := images.StoreImage(storedUrl.value);
      apartment.SetImageUrl(Some(imageUrl));
    }
    var id := store.SaveApartmentRow(apartment.id, apartment.Row());
    if apartment.id.None? {
      apartment.SetId(Some(id));
    }
    r := Ok(id);
  }

  /** deleteApartmentWithImage: for a stored apartment, deletes its image when
      it is an uploaded one, then the apartment; an unknown id changes nothing. */
  method DeleteApartmentWithImage(store: Store, images: ImageStorage, id: nat)
    requires store.Valid()
    modifies store, images
    ensures store.Valid()
    ensures store.apartments == old(store.apartments) - {id}
    ensures store.users == old(store.users) && store.parkings == old(store.parkings)
    ensures images.calls == old(images.calls) +
      (if id in old(store.apartments) then ImageCleanup(old(store.apartments)[id].imageUrl) else [])
    ensures id !in old(store.apartments) ==> unchanged(store) && unchanged(images)
  {
    if id in store.apartments {
      var apartment := store.apartments[id];
      if IsUploaded(apartment.imageUrl) {
        images.DeleteImage(apartment.imageUrl.value);
      }
      store.DeleteApartmentRow(id);
    }
  }

  /** Whatever the three image operations do, an image that was not uploaded
      by the application (an external URL) is never deleted. */
  lemma ImageOperationsDeleteOnlyUploads(calls: seq<ImageCall>, url: Option<string>, file: Option<seq<bv8>>, stored: seq<ImageCall>)
    requires OnlyUploadsDeleted(calls)
    requires forall i :: 0 <= i < |stored| ==> stored[i].Stored?
    ensures OnlyUploadsDeleted(calls + ImageCleanup(url))
    ensures OnlyUploadsDeleted(calls + (if HasContent(file) then ImageCleanup(url) else []) + stored)
  {
    OnlyUploadsDeletedAppend(calls, ImageCleanup(url));
    var first := calls + (if HasContent(file) then ImageCleanup(url) else []);
    OnlyUploadsDeletedAppend(calls, if HasContent(file) then ImageCleanup(url) else []);
    OnlyUploadsDeletedAppend(first, stored);
  }
}

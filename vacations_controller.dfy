/** The vacation handlers that change the two tables: create, update and delete (admin only),
    follow and unfollow, and the CSV export built line by line. The tables live in one
    `VacationStore`; each handler is a method returning the reply it sends. */
module VacationsController {
  import opened Wrappers
  import opened Models
  import opened Followers
  import opened VacationListing

  // ---------------------------------------------------------------------------
  // Validation of the request body shared by create and update

  /** The body of a create or update request. A date or price that is absent (or, for a
      date, empty) is `None`; a present price of 0 is `Some(0)`, not missing. */
  datatype VacationInput = VacationInput(destination: string, description: string,
                                         startDate: Option<Day>, endDate: Option<Day>, price: Option<int>)

  const FieldsRequiredMessage := "All fields are required"
  const PriceRangeMessage := "Price must be between 0 and 10,000"
  const PastStartMessage := "Start date cannot be in the past"
  const EndBeforeStartMessage := "End date cannot be before start date"

  const MinPrice := 0
  const MaxPrice := 10000

  /** Every field is present (empty strings count as missing). */
  predicate Complete(input: VacationInput) {
    input.destination != "" && input.description != ""
    && input.startDate.Some? && input.endDate.Some? && input.price.Some?
  }

  predicate PriceInRange(price: int) {
    MinPrice <= price <= MaxPrice
  }

  /** The checks of an update, first failure first: fields, price, date order. */
  function ValidateUpdate(input: VacationInput): (err: Option<string>)
    ensures err.None? <==> Complete(input) && PriceInRange(input.price.value)
                           && input.endDate.value >= input.startDate.value
    ensures !Complete(input) ==> err == Some(FieldsRequiredMessage)
    ensures Complete(input) && !PriceInRange(input.price.value) ==> err == Some(PriceRangeMessage)
    ensures Complete(input) && PriceInRange(input.price.value) && input.endDate.value < input.startDate.value
            ==> err == Some(EndBeforeStartMessage)
  {
    if !Complete(input) then Some(FieldsRequiredMessage)
    else if !PriceInRange(input.price.value) then Some(PriceRangeMessage)
    else if input.endDate.value < input.startDate.value then Some(EndBeforeStartMessage)
    else None
  }

  /** The checks of a create: those of an update with the past-date check before the
      date-order check. */
  function ValidateCreate(input: VacationInput, today: Day): (err: Option<string>)
    ensures err.None? <==> Complete(input) && PriceInRange(input.price.value)
                           && input.startDate.value >= today && input.endDate.value >= input.startDate.value
    ensures !Complete(input) ==> err == Some(FieldsRequiredMessage)
    ensures Complete(input) && !PriceInRange(input.price.value) ==> err == Some(PriceRangeMessage)
    ensures Complete(input) && PriceInRange(input.price.value) && input.startDate.value < today
            ==> err == Some(PastStartMessage)
    ensures Complete(input) && PriceInRange(input.price.value) && input.startDate.value >= today
            && input.endDate.value < input.startDate.value
            ==> err == Some(EndBeforeStartMessage)
  {
    if !Complete(input) then Some(FieldsRequiredMessage)
    else if !PriceInRange(input.price.value) then Some(PriceRangeMessage)
    else if input.startDate.value < today then Some(PastStartMessage)
    else if input.endDate.value < input.startDate.value then Some(EndBeforeStartMessage)
    else None
  }

  /** A create passes exactly when an update of the same body passes and the start is not
      in the past; where the update fails on fields or price, both report the same message. */
  lemma CreateIsUpdateWithoutPastStart(input: VacationInput, today: Day)
    ensures ValidateCreate(input, today).None?
            <==> ValidateUpdate(input).None? && input.startDate.value >= today
    ensures ValidateUpdate(input) in {Some(FieldsRequiredMessage), Some(PriceRangeMessage)}
            ==> ValidateCreate(input, today) == ValidateUpdate(input)
  {
  }

  /** An update accepts a start date in the past that a create refuses. */
  lemma UpdateAcceptsPastStart(today: Day)
    ensures var input := VacationInput("Rome", "City break", Some(today - 1), Some(today), Some(0));
      ValidateUpdate(input).None? && ValidateCreate(input, today) == Some(PastStartMessage)
  {
  }

  /** A row every create or update could have written. */
  predicate WellFormed(v: Vacation) {
    v.destination != "" && v.description != "" && PriceInRange(v.price) && v.startDate <= v.endDate
  }

  /** The row a valid body describes. */
  function RowOf(id: nat, input: VacationInput, imageFileName: string): (v: Vacation)
    requires ValidateUpdate(input).None?
    ensures WellFormed(v) && v.id == id && v.imageFileName == imageFileName
  {
    Vacation(id, input.destination, input.description, input.startDate.value, input.endDate.value,
             input.price.value, imageFileName)
  }

  /** The image kept by a row whose file is replaced or deleted: anything but the default. */
  function DiscardedImage(imageFileName: string): (removed: Option<string>)
    ensures removed.Some? <==> imageFileName != DefaultImage
    ensures removed.Some? ==> removed.value == imageFileName
  {
    if imageFileName != DefaultImage then Some(imageFileName) else None
  }

  /** The reply to a create: the new row and its follower count. */
  datatype Created = Created(vacation: Vacation, followersCount: nat)

  const UnauthorizedMessage := "Unauthorized"
  const AlreadyFollowingMessage := "Already following this vacation"
  const FollowNotFoundMessage := "Follow record not found"
  const DeletedMessage := "Vacation deleted successfully"
  const FollowedMessage := "Vacation followed successfully"
  const UnfollowedMessage := "Vacation unfollowed successfully"

  // ---------------------------------------------------------------------------
  // The store

  class VacationStore {
    /** The vacations table, keyed by its auto-increment id. */
    var vacations: map<nat, Vacation>
    /** The followers table. */
    var followers: seq<Follow>
    /** The id the next inserted vacation receives. */
    var nextId: nat

    /** Every row sits under its own id below `nextId`, every row is one a handler could have
        written, no follower pair occurs twice and every pair names a stored vacation. */
    ghost predicate Valid()
      reads this
    {
      && nextId >= 1
      && KeysAreIds(vacations)
      && (forall k :: k in vacations ==> 1 <= k < nextId)
      && (forall k :: k in vacations ==> WellFormed(vacations[k]))
      && NoDuplicates(followers)
      && (forall f :: f in followers ==> f.vacationId in vacations)
    }

    constructor ()
      ensures Valid()
      ensures vacations == map[] && followers == [] && nextId == 1
    {
      vacations := map[];
      followers := [];
      nextId := 1;
    }

    /** POST /vacations. `upload` is the stored name of an uploaded image, if any. */
    method Create(input: VacationInput, upload: Option<string>, today: Day) returns (r: Reply<Created>)
      requires Valid()
      modifies this
      ensures Valid()
      ensures r.Failure? <==> ValidateCreate(input, today).Some?
      ensures r.Failure? ==> r == Failure(BAD_REQUEST, ValidateCreate(input, today).value)
                             && vacations == old(vacations) && followers == old(followers) && nextId == old(nextId)
      ensures r.Success? ==> && r.status == CREATED
                             && r.value.vacation == RowOf(old(nextId), input, upload.GetOr(DefaultImage))
                             && r.value.followersCount == |FollowerIds(followers, r.value.vacation.id)| == 0
                             && vacations == old(vacations)[old(nextId) := r.value.vacation]
                             && followers == old(followers) && nextId == old(nextId) + 1
    {
      var err := ValidateCreate(input, today);
      if err.Some? {
        return Failure(BAD_REQUEST, err.value);
      }
      var v := RowOf(nextId, input, upload.GetOr(DefaultImage));
      vacations := vacations[nextId := v];
      nextId := nextId + 1;
      assert Follow(0, v.id) !in followers;
      assert forall u :: u !in FollowerIds(followers, v.id);
      assert FollowerIds(followers, v.id) == {};
      r := Success(CREATED, Created(v, 0));
    }

    /** PUT /vacations/:id. Validation runs before the lookup, so an invalid body for an
        unknown id is a 400. The image is replaced only when one is uploaded; the file it
        replaces is discarded unless it is the default image. */
    method Update(id: nat, input: VacationInput, upload: Option<string>)
      returns (r: Reply<Vacation>, removedImage: Option<string>)
      requires Valid()
      modifies this`vacations
      ensures Valid()
      ensures ValidateUpdate(input).Some? ==> r == Failure(BAD_REQUEST, ValidateUpdate(input).value)
      ensures ValidateUpdate(input).None? && id !in old(vacations) ==> r == Failure(NOT_FOUND, NotFoundMessage)
      ensures r.Failure? ==> vacations == old(vacations) && removedImage == None
      ensures r.Success? <==> ValidateUpdate(input).None? && id in old(vacations)
      ensures r.Success? ==>
        var oldImage := old(vacations)[id].imageFileName;
        && r.status == OK
        && r.value == RowOf(id, input, upload.GetOr(oldImage))
        && vacations == old(vacations)[id := r.value]
        && removedImage == (if upload.Some? then DiscardedImage(oldImage) else None)
    {
      removedImage := None;
      var err := ValidateUpdate(input);
      if err.Some? {
        return Failure(BAD_REQUEST, err.value), None;
      }
      if id !in vacations {
        return Failure(NOT_FOUND, NotFoundMessage), None;
      }
      var imageFileName := vacations[id].imageFileName;
      if upload.Some? {
        removedImage := DiscardedImage(imageFileName);
        imageFileName := upload.value;
      }
      var v := RowOf(id, input, imageFileName);
      vacations := vacations[id := v];
      r := Success(OK, v);
    }

    /** DELETE /vacations/:id: the follower rows of the vacation go first, then the row. */
    method Delete(id: nat) returns (r: Reply<string>, removedImage: Option<string>)
      requires Valid()
      modifies this`vacations, this`followers
      ensures Valid()
      ensures r.Failure? <==> id !in old(vacations)
      ensures r.Failure? ==> && r == Failure(NOT_FOUND, NotFoundMessage) && removedImage == None
                             && vacations == old(vacations) && followers == old(followers)
      ensures r.Success? ==> && r == Success(OK, DeletedMessage)
                             && followers == RemoveVacation(old(followers), id)
                             && vacations == old(vacations) - {id}
                             && removedImage == DiscardedImage(old(vacations)[id].imageFileName)
    {
      if id !in vacations {
        return Failure(NOT_FOUND, NotFoundMessage), None;
      }
      var imageFileName := vacations[id].imageFileName;
      followers := RemoveVacation(followers, id);
      vacations := vacations - {id};
      removedImage := DiscardedImage(imageFileName);
      r := Success(OK, DeletedMessage);
    }

    /** POST /vacations/:id/follow. */
    method FollowVacation(caller: Option<nat>, id: nat) returns (r: Reply<string>)
      requires Valid()
      modifies this`followers
      ensures Valid()
      ensures !KnownCaller(caller) ==> r == Failure(UNAUTHORIZED, UnauthorizedMessage)
      ensures KnownCaller(caller) && id !in vacations ==> r == Failure(NOT_FOUND, NotFoundMessage)
      ensures KnownCaller(caller) && id in vacations && Follow(caller.value, id) in old(followers)
              ==> r == Failure(CONFLICT, AlreadyFollowingMessage)
      ensures r.Failure? ==> followers == old(followers)
      ensures r.Success? <==> KnownCaller(caller) && id in vacations && Follow(caller.value, id) !in old(followers)
      ensures r.Success? ==> r == Success(CREATED, FollowedMessage) && followers == old(followers) + [Follow(caller.value, id)]
    {
      if !KnownCaller(caller) {
        return Failure(UNAUTHORIZED, UnauthorizedMessage);
      }
      if id !in vacations {
        return Failure(NOT_FOUND, NotFoundMessage);
      }
      var pair := Follow(caller.value, id);
      if pair in followers {
        return Failure(CONFLICT, AlreadyFollowingMessage);
      }
      followers := followers + [pair];
      r := Success(CREATED, FollowedMessage);
    }

    /** DELETE /vacations/:id/follow. The vacation itself is not looked up: an absent pair,
        whatever the id, is a 404. */
    method UnfollowVacation(caller: Option<nat>, id: nat) returns (r: Reply<string>)
      requires Valid()
      modifies this`followers
      ensures Valid()
      ensures !KnownCaller(caller) ==> r == Failure(UNAUTHORIZED, UnauthorizedMessage) && followers == old(followers)
      ensures KnownCaller(caller) && Follow(caller.value, id) !in old(followers)
              ==> r == Failure(NOT_FOUND, FollowNotFoundMessage) && followers == old(followers)
      ensures r.Success? <==> KnownCaller(caller) && Follow(caller.value, id) in old(followers)
      ensures r.Success? ==> r == Success(OK, UnfollowedMessage)
                             && followers == RemovePair(old(followers), Follow(caller.value, id))
    {
      if !KnownCaller(caller) {
        return Failure(UNAUTHORIZED, UnauthorizedMessage);
      }
      var pair := Follow(caller.value, id);
      var remaining := RemovePair(followers, pair);
      if |remaining| == |followers| {
        KeepAll(followers, (f: Follow) => f != pair);
        return Failure(NOT_FOUND, FollowNotFoundMessage);
      }
      followers := remaining;
      r := Success(OK, UnfollowedMessage);
    }

    /** GET /vacations/csv: the report rows written out by `WriteCsv`. */
    method DownloadCsv() returns (csv: string)
      requires Valid()
      ensures csv == CsvText(Report(vacations, nextId, followers))
    {
      var rows := Report(vacations, nextId, followers);
      csv := WriteCsv(rows);
    }
  }

  /** The CSV text built the way the handler builds it: the header line, then one line
      appended per report row. */
  method WriteCsv(rows: seq<ReportRow>) returns (csv: string)
    ensures csv == CsvText(rows)
  {
    csv := CsvHeader + "\n";
    var i := 0;
    while i < |rows|
      invariant 0 <= i <= |rows|
      invariant csv == CsvText(rows[..i])
    {
      CsvTextAppend(rows[..i], rows[i]);
      assert rows[..i + 1] == rows[..i] + [rows[i]];
      csv := csv + RowText(rows[i]) + "\n";
      i := i + 1;
    }
    assert rows[..i] == rows;
  }
}

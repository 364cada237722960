/** The admin's add and edit forms: their checks (dates are the `YYYY-MM-DD` strings of the
    date inputs, compared as strings; the price is the text of the price input, read with
    `parseFloat`), the multipart body they submit, and the edit form's loading of a stored
    vacation. */
module VacationForms {
  import opened Wrappers
  import opened Strings
  import opened Models

  datatype VacationForm = VacationForm(destination: string, description: string,
                                       startDate: string, endDate: string, price: string)

  const AllFieldsMessage := "All fields are required"
  const AllFieldsExceptImageMessage := "All fields are required (except image)"
  const PriceRangeMessage := "Price must be between 0 and 10,000"
  const PastStartMessage := "Start date cannot be in the past"
  const EndBeforeStartMessage := "End date cannot be before start date"
  const CreateFailedMessage := "Failed to create vacation"
  const UpdateFailedMessage := "Failed to update vacation"
  const LoadFailedMessage := "Failed to load vacation"

  predicate Filled(form: VacationForm) {
    form.destination != "" && form.description != "" && form.startDate != "" && form.endDate != ""
    && form.price != ""
  }

  /** `priceNum < 0 || priceNum > 10000` with `priceNum = parseFloat(price)`: a price that
      does not parse is NaN, which no comparison holds for, so it is not out of range. */
  predicate PriceOutOfRange(price: string) {
    match ParseNumberPrefix(price)
    case None => false
    case Some(p) => p < 0 || p > 10000
  }

  /** validateForm of the add page, first failure first: fields, price, past start (against
      `today`, the current date as `YYYY-MM-DD`), date order. */
  function ValidateAddForm(form: VacationForm, today: string): (err: Option<string>)
    ensures err.None? <==> Filled(form) && !PriceOutOfRange(form.price) && !LexLess(form.startDate, today)
                           && !LexLess(form.endDate, form.startDate)
    ensures !Filled(form) ==> err == Some(AllFieldsMessage)
    ensures Filled(form) && PriceOutOfRange(form.price) ==> err == Some(PriceRangeMessage)
    ensures Filled(form) && !PriceOutOfRange(form.price) && LexLess(form.startDate, today)
            ==> err == Some(PastStartMessage)
    ensures Filled(form) && !PriceOutOfRange(form.price) && !LexLess(form.startDate, today)
            && LexLess(form.endDate, form.startDate)
            ==> err == Some(EndBeforeStartMessage)
  {
    if !Filled(form) then Some(AllFieldsMessage)
    else if PriceOutOfRange(form.price) then Some(PriceRangeMessage)
    else if LexLess(form.startDate, today) then Some(PastStartMessage)
    else if LexLess(form.endDate, form.startDate) then Some(EndBeforeStartMessage)
    else None
  }

  /** validateForm of the edit page: the same checks without the past-start one, and its own
      message for an empty field. */
  function ValidateEditForm(form: VacationForm): (err: Option<string>)
    ensures err.None? <==> Filled(form) && !PriceOutOfRange(form.price) && !LexLess(form.endDate, form.startDate)
    ensures !Filled(form) ==> err == Some(AllFieldsExceptImageMessage)
    ensures Filled(form) && PriceOutOfRange(form.price) ==> err == Some(PriceRangeMessage)
    ensures Filled(form) && !PriceOutOfRange(form.price) && LexLess(form.endDate, form.startDate)
            ==> err == Some(EndBeforeStartMessage)
  {
    if !Filled(form) then Some(AllFieldsExceptImageMessage)
    else if PriceOutOfRange(form.price) then Some(PriceRangeMessage)
    else if LexLess(form.endDate, form.startDate) then Some(EndBeforeStartMessage)
    else None
  }

  /** The add form accepts exactly what the edit form accepts with a start that is not
      before today; in particular the edit form accepts a start date in the past. */
  lemma AddIsEditWithoutPastStart(form: VacationForm, today: string)
    ensures ValidateAddForm(form, today).None? <==> ValidateEditForm(form).None? && !LexLess(form.startDate, today)
  {
  }

  /** Both price bounds are accepted. */
  lemma PriceBoundsAccepted()
    ensures !PriceOutOfRange("0") && !PriceOutOfRange("10000")
  {
    IntToStringRoundTrip(0);
    IntToStringRoundTrip(10000);
    assert IntToString(0) == "0";
    assert IntToString(10000) == "10000";
  }

  /** The prices just outside the bounds are refused. */
  lemma PricesOutsideBoundsRefused()
    ensures PriceOutOfRange("-1") && PriceOutOfRange("10001")
  {
    IntToStringRoundTrip(-1);
    IntToStringRoundTrip(10001);
    assert IntToString(-1) == "-1";
    assert IntToString(10001) == "10001";
  }

  /** A price that does not start with a number is NaN to `parseFloat`, and passes the range
      check: the form accepts it. */
  lemma NonNumericPricePasses(form: VacationForm, today: string)
    requires Filled(form) && form.price[0] !in "+-0123456789"
    requires !LexLess(form.startDate, today) && !LexLess(form.endDate, form.startDate)
    ensures ValidateAddForm(form, today).None? && ValidateEditForm(form).None?
  {
    assert ParseNumberPrefix(form.price).None? by {
      assert !IsDigit(form.price[0]);
    }
  }

  // ---------------------------------------------------------------------------
  // Loading a stored vacation into the edit form

  /** `s.split('T')[0]`: the part of an ISO timestamp before the time. */
  function DatePart(s: string): (d: string)
    ensures StartsWith(s, d) && 'T' !in d
    ensures 'T' !in s ==> d == s
    ensures |d| < |s| ==> s[|d|] == 'T'
  {
    SplitFirstPiece(s, 'T');
    if 'T' !in s then SplitWithoutSeparator(s, 'T'); Split(s, 'T')[0]
    else Split(s, 'T')[0]
  }

  /** Truncating twice is truncating once. */
  lemma DatePartIdempotent(s: string)
    ensures DatePart(DatePart(s)) == DatePart(s)
  {
  }

  /** The vacation as the edit page receives it: dates as ISO timestamps. */
  datatype LoadedVacation = LoadedVacation(destination: string, description: string, startDate: string,
                                           endDate: string, price: int, imageFileName: string)

  /** The form filled from a loaded vacation: dates cut to their day, the price as text. */
  function FormOf(v: LoadedVacation): (form: VacationForm)
    ensures form.destination == v.destination && form.description == v.description
    ensures ParseNumberPrefix(form.price) == Some(v.price)
    ensures StartsWith(v.startDate, form.startDate) && 'T' !in form.startDate
    ensures StartsWith(v.endDate, form.endDate) && 'T' !in form.endDate
    ensures form.startDate == DatePart(v.startDate) && form.endDate == DatePart(v.endDate)
  {
    IntToStringRoundTrip(v.price);
    VacationForm(v.destination, v.description, DatePart(v.startDate), DatePart(v.endDate), IntToString(v.price))
  }

  /** A loaded price within the bounds passes the price check unchanged. */
  lemma LoadedPriceInRangePasses(v: LoadedVacation)
    requires 0 <= v.price <= 10000
    ensures !PriceOutOfRange(FormOf(v).price)
  {
  }

  // ---------------------------------------------------------------------------
  // The multipart body

  /** A multipart part: its name and its value (for a file, the file's name). */
  datatype Part = Part(name: string, value: string)

  /** The parts submitted, in order: the five fields as typed, then the image if one was
      chosen. */
  function FormParts(form: VacationForm, image: Option<string>): (parts: seq<Part>)
    ensures |parts| == if image.Some? then 6 else 5
    ensures parts[..5] == [Part("destination", form.destination), Part("description", form.description),
                           Part("startDate", form.startDate), Part("endDate", form.endDate),
                           Part("price", form.price)]
    ensures image.Some? ==> parts[5] == Part("image", image.value)
    ensures (exists i :: 0 <= i < |parts| && parts[i].name == "image") <==> image.Some?
  {
    var fields := [Part("destination", form.destination), Part("description", form.description),
                   Part("startDate", form.startDate), Part("endDate", form.endDate), Part("price", form.price)];
    assert forall i :: 0 <= i < 5 ==> fields[i].name != "image";
    if image.Some? then fields + [Part("image", image.value)] else fields
  }

  /** A `FormData` object: parts appended in order. */
  class FormData {
    var parts: seq<Part>

    constructor ()
      ensures parts == []
    {
      parts := [];
    }

    method Append(name: string, value: string)
      modifies this
      ensures parts == old(parts) + [Part(name, value)]
    {
      parts := parts + [Part(name, value)];
    }
  }

  /** The appends of both pages' handleSubmit. */
  method BuildFormData(form: VacationForm, image: Option<string>) returns (data: FormData)
    ensures fresh(data)
    ensures data.parts == FormParts(form, image)
  {
    data := new FormData();
    data.Append("destination", form.destination);
    data.Append("description", form.description);
    data.Append("startDate", form.startDate);
    data.Append("endDate", form.endDate);
    data.Append("price", form.price);
    if image.Some? {
      data.Append("image", image.value);
    }
  }

  // ---------------------------------------------------------------------------
  // The pages

  class AddVacationPage {
    var form: VacationForm
    var image: Option<string>
    var error: string
    var loading: bool
    /** The bodies of the create requests sent, oldest first. */
    var sent: seq<seq<Part>>
    var location: Option<string>

    constructor (form: VacationForm, image: Option<string>)
      ensures this.form == form && this.image == image
      ensures error == "" && !loading && sent == [] && location == None
    {
      this.form := form;
      this.image := image;
      error := "";
      loading := false;
      sent := [];
      location := None;
    }

    /** handleSubmit: a create request only for a valid form; back to /admin when it is
        accepted, its message (or a fallback) when it is not. */
    method HandleSubmit(today: string, accepted: bool, message: Option<string>)
      modifies this`error, this`loading, this`sent, this`location
      ensures ValidateAddForm(form, today).Some? ==>
        loading == old(loading) && error == ValidateAddForm(form, today).value && sent == old(sent) && location == old(location)
      ensures ValidateAddForm(form, today).None? ==>
        && !loading
        && sent == old(sent) + [FormParts(form, image)]
        && (accepted ==> error == "" && location == Some("/admin"))
        && (!accepted ==> error == MessageOr(message, CreateFailedMessage) && location == old(location))
    {
      error := "";
      var err := ValidateAddForm(form, today);
      if err.Some? {
        error := err.value;
        return;
      }
      loading := true;
      var data := BuildFormData(form, image);
      sent := sent + [data.parts];
      if accepted {
        location := Some("/admin");
      } else {
        error := MessageOr(message, CreateFailedMessage);
      }
      loading := false;
    }
  }

  class EditVacationPage {
    const id: nat
    var form: VacationForm
    var currentImage: string
    var image: Option<string>
    var error: string
    var fetching: bool
    var loading: bool
    /** The update requests sent, oldest first: the id and the body. */
    var sent: seq<(nat, seq<Part>)>
    var location: Option<string>

    constructor (id: nat)
      ensures this.id == id && form == VacationForm("", "", "", "", "") && currentImage == ""
      ensures image == None && error == "" && fetching && !loading && sent == [] && location == None
    {
      this.id := id;
      form := VacationForm("", "", "", "", "");
      currentImage := "";
      image := None;
      error := "";
      fetching := true;
      loading := false;
      sent := [];
      location := None;
    }

    /** The fetch effect: fill the form from the loaded vacation, or show the load error. */
    method Load(loaded: Option<LoadedVacation>)
      modifies this`form, this`currentImage, this`error, this`fetching
      ensures !fetching
      ensures loaded.Some? ==> form == FormOf(loaded.value) && currentImage == loaded.value.imageFileName
                               && error == old(error)
      ensures loaded.None? ==> error == LoadFailedMessage && form == old(form)
                               && currentImage == old(currentImage)
    {
      if loaded.Some? {
        form := FormOf(loaded.value);
        currentImage := loaded.value.imageFileName;
      } else {
        error := LoadFailedMessage;
      }
      fetching := false;
    }

    /** handleSubmit: an update request only for a valid form; the image part only when a new
        file was chosen. */
    method HandleSubmit(accepted: bool, message: Option<string>)
      modifies this`error, this`loading, this`sent, this`location
      ensures ValidateEditForm(form).Some? ==>
        loading == old(loading) && error == ValidateEditForm(form).value && sent == old(sent) && location == old(location)
      ensures ValidateEditForm(form).None? ==>
        && !loading
        && sent == old(sent) + [(id, FormParts(form, image))]
        && (accepted ==> error == "" && location == Some("/admin"))
        && (!accepted ==> error == MessageOr(message, UpdateFailedMessage) && location == old(location))
    {
      error := "";
      var err := ValidateEditForm(form);
      if err.Some? {
        error := err.value;
        return;
      }
      loading := true;
      var data := BuildFormData(form, image);
      sent := sent + [(id, data.parts)];
      if accepted {
        location := Some("/admin");
      } else {
        error := MessageOr(message, UpdateFailedMessage);
      }
      loading := false;
    }
  }
}

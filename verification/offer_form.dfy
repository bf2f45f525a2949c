/** The merchant's "publish offer" form: the per-field error map computed when the
    button is pressed, and the request that is sent only when that map is empty.
    `Number(...)` and `new Date(...)` are the caller's parsers, passed in. */
module OfferForm {
  import opened JsText

  /** The result of `Number(text)`: a finite value, or NaN / an infinity. */
  datatype Num = Finite(v: real) | NotFinite

  predicate Positive(n: Num)
  {
    n.Finite? && n.v > 0.0
  }

  /** The keys of the `offerErrors` object. */
  datatype Field = Title | Price | StandardPrice | Qty | Time | MerchantId

  const TimeMessage := "La fine deve essere successiva all\U{2019}inizio"
  const MerchantIdMessage := "Merchant ID non valido"
  const TitleMessage := "Titolo obbligatorio"
  const PriceMessage := "Prezzo non valido"
  const StandardPriceMessage := "Prezzo standard non valido"
  const StandardNotGreaterMessage := "Prezzo standard deve essere maggiore del prezzo offerta"
  const QtyMessage := "Quantit\U{00E0} deve essere > 0"

  /** The text inputs of the form. */
  datatype Form = Form(
    merchantId: string, title: string, description: string,
    price: string, standardPrice: string, qty: string,
    mealType: string, city: string,
    startDate: string, startTime: string, endDate: string, endTime: string)

  /** `s.replace(',', '.')`: only the first comma becomes a point. */
  function ReplaceFirstComma(s: string): (r: string)
    ensures |r| == |s|
    ensures forall i :: 0 <= i < |s| && s[i] != ',' ==> r[i] == s[i]
  {
    if s == [] then []
    else if s[0] == ',' then ['.'] + s[1..]
    else [s[0]] + ReplaceFirstComma(s[1..])
  }

  /** A decimal comma is read as a decimal point; a second comma stays. */
  lemma {:induction false} ReplaceFirstCommaOnce(a: string, b: string)
    requires forall i :: 0 <= i < |a| ==> a[i] != ','
    ensures ReplaceFirstComma(a + "," + b) == a + "." + b
  {
    var s := a + "," + b;
    if a != [] {
      assert s[0] == a[0] != ',';
      assert s[1..] == a[1..] + "," + b;
      ReplaceFirstCommaOnce(a[1..], b);
      assert a + "." + b == [a[0]] + (a[1..] + "." + b);
    } else {
      assert s == [','] + b;
      assert s[1..] == b;
      assert a + "." + b == ['.'] + b;
    }
  }

  /** `${date}T${time}:00`, the local date-time sent to the server. */
  function LocalDateTime(date: string, time: string): string
  {
    date + "T" + time + ":00"
  }

  /** The numbers and instants the handler derives from the form. */
  datatype Parsed = Parsed(merchantId: Num, price: Num, standardPrice: Num, qty: Num,
                           startsAt: Option<int>, endsAt: Option<int>)

  function Parse(f: Form, toNumber: string -> Num, toTime: string -> Option<int>): Parsed
  {
    Parsed(toNumber(f.merchantId), toNumber(ReplaceFirstComma(f.price)),
           toNumber(ReplaceFirstComma(f.standardPrice)), toNumber(f.qty),
           toTime(LocalDateTime(f.startDate, f.startTime)), toTime(LocalDateTime(f.endDate, f.endTime)))
  }

  predicate TimeInvalid(p: Parsed)
  {
    p.startsAt.None? || p.endsAt.None? || p.endsAt.value <= p.startsAt.value
  }

  predicate StandardNotGreater(p: Parsed)
  {
    p.price.Finite? && p.standardPrice.Finite? && p.standardPrice.v <= p.price.v
  }

  /** The message the handler leaves under key `k`, if any. The standard-price
      check runs twice, and the second message overwrites the first. */
  function Message(f: Form, p: Parsed, k: Field): Option<string>
  {
    match k
    case Time => if TimeInvalid(p) then Some(TimeMessage) else None
    case MerchantId => if p.merchantId.NotFinite? then Some(MerchantIdMessage) else None
    case Title => if Trim(f.title) == "" then Some(TitleMessage) else None
    case Price => if !Positive(p.price) then Some(PriceMessage) else None
    case StandardPrice =>
      if StandardNotGreater(p) then Some(StandardNotGreaterMessage)
      else if !Positive(p.standardPrice) then Some(StandardPriceMessage)
      else None
    case Qty => if p.qty.Finite? && p.qty.v <= 0.0 then Some(QtyMessage) else None
  }

  const AllFields: set<Field> := {Title, Price, StandardPrice, Qty, Time, MerchantId}

  lemma AllFieldsListed()
    ensures forall k: Field :: k in AllFields
  {
    forall k: Field ensures k in AllFields {
      match k
      case Title => case Price => case StandardPrice => case Qty => case Time => case MerchantId =>
    }
  }

  /** The `errors` object once every check has run: one entry per failed check. */
  function Errors(f: Form, p: Parsed): (errs: map<Field, string>)
    ensures forall k :: k in errs <==> Message(f, p, k).Some?
    ensures forall k :: k in errs ==> errs[k] == Message(f, p, k).value
  {
    AllFieldsListed();
    map k | k in AllFields && Message(f, p, k).Some? :: Message(f, p, k).value
  }

  /** Which checks fail, field by field; the standard-price entry carries the
      "must be greater" message whenever both prices are finite and the standard
      one is not larger. */
  lemma ErrorsByField(f: Form, p: Parsed)
    ensures Time in Errors(f, p) <==> TimeInvalid(p)
    ensures MerchantId in Errors(f, p) <==> p.merchantId.NotFinite?
    ensures Price in Errors(f, p) <==> !Positive(p.price)
    ensures StandardPrice in Errors(f, p) <==> !Positive(p.standardPrice) || StandardNotGreater(p)
    ensures Qty in Errors(f, p) <==> p.qty.Finite? && p.qty.v <= 0.0
    ensures StandardPrice in Errors(f, p) ==>
              Errors(f, p)[StandardPrice] == if StandardNotGreater(p) then StandardNotGreaterMessage else StandardPriceMessage
  {
  }

  /** The title is reported exactly when it is empty or white space only. */
  lemma TitleErrorIffBlank(f: Form, p: Parsed)
    ensures Title in Errors(f, p) <==> AllSpace(f.title)
  {
    TrimEmptyIffBlank(f.title);
  }

  /** The offer goes out exactly when the end follows the start, the merchant id
      is a number, the title is not blank, the offer price is positive, the
      standard price exceeds it, and the quantity is not a non-positive number
      (a quantity that is not a number at all passes and is sent as null). */
  lemma {:induction false} SubmitIff(f: Form, p: Parsed)
    ensures |Errors(f, p)| == 0 <==>
              && p.startsAt.Some? && p.endsAt.Some? && p.startsAt.value < p.endsAt.value
              && p.merchantId.Finite?
              && !AllSpace(f.title)
              && Positive(p.price)
              && p.standardPrice.Finite? && p.standardPrice.v > p.price.v
              && (p.qty.NotFinite? || p.qty.v > 0.0)
  {
    var errs := Errors(f, p);
    ErrorsByField(f, p);
    TitleErrorIffBlank(f, p);
    if |errs| == 0 {
      assert errs == map[];
    } else {
      var k :| k in errs;
    }
  }

  /** The body of `createFlashOffer`. */
  datatype CreateOffer = CreateOffer(
    merchantId: real, title: string, description: Option<string>,
    price: real, standardPrice: real, mealType: Option<string>, city: Option<string>,
    startsAt: string, endsAt: string, quantityAvailable: Option<real>)

  /** Pressing "Pubblica offerta": the error map to show, and the request to
      send when it is empty. Empty description, meal type and city become null,
      and so does a quantity that is not a finite number. */
  function Publish(f: Form, toNumber: string -> Num, toTime: string -> Option<int>): (r: (map<Field, string>, Option<CreateOffer>))
    ensures r.0 == Errors(f, Parse(f, toNumber, toTime))
    ensures r.1.Some? <==> |r.0| == 0
    ensures r.1.Some? ==> r.1.value.standardPrice > r.1.value.price > 0.0
    ensures r.1.Some? ==> r.1.value.title == f.title && r.1.value.startsAt == LocalDateTime(f.startDate, f.startTime)
    ensures r.1.Some? ==> (r.1.value.quantityAvailable.Some? <==> toNumber(f.qty).Finite?)
    ensures r.1.Some? && r.1.value.quantityAvailable.Some? ==> r.1.value.quantityAvailable.value > 0.0
    ensures var p := Parse(f, toNumber, toTime);
            r.1.Some? ==> && p.merchantId == Finite(r.1.value.merchantId)
                          && p.price == Finite(r.1.value.price) && p.standardPrice == Finite(r.1.value.standardPrice)
                          && r.1.value.endsAt == LocalDateTime(f.endDate, f.endTime)
                          && (r.1.value.quantityAvailable.Some? ==> p.qty == Finite(r.1.value.quantityAvailable.value))
    ensures r.1.Some? ==> && (r.1.value.description.None? <==> f.description == "")
                          && (r.1.value.description.Some? ==> r.1.value.description.value == f.description)
                          && (r.1.value.mealType.None? <==> f.mealType == "")
                          && (r.1.value.mealType.Some? ==> r.1.value.mealType.value == f.mealType)
                          && (r.1.value.city.None? <==> f.city == "")
                          && (r.1.value.city.Some? ==> r.1.value.city.value == f.city)
  {
    var p := Parse(f, toNumber, toTime);
    var errs := Errors(f, p);
    SubmitIff(f, p);
    if |errs| > 0 then (errs, None)
    else
      (errs, Some(CreateOffer(
        p.merchantId.v, f.title, if f.description == "" then None else Some(f.description),
        p.price.v, p.standardPrice.v,
        if f.mealType == "" then None else Some(f.mealType),
        if f.city == "" then None else Some(f.city),
        LocalDateTime(f.startDate, f.startTime), LocalDateTime(f.endDate, f.endTime),
        if p.qty.Finite? then Some(p.qty.v) else None)))
  }

  /** The offer is created exactly when every check of the form passes. */
  lemma PublishIff(f: Form, toNumber: string -> Num, toTime: string -> Option<int>)
    ensures var p := Parse(f, toNumber, toTime);
            Publish(f, toNumber, toTime).1.Some? <==>
              && p.startsAt.Some? && p.endsAt.Some? && p.startsAt.value < p.endsAt.value
              && p.merchantId.Finite?
              && !AllSpace(f.title)
              && Positive(p.price)
              && p.standardPrice.Finite? && p.standardPrice.v > p.price.v
              && (p.qty.NotFinite? || p.qty.v > 0.0)
  {
    SubmitIff(f, Parse(f, toNumber, toTime));
  }
}

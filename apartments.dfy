/** The Apartment entity (entity/Apartment.java): its field-level validation
    constraints, its status predicates, its address and price formatting, and
    the entity object with its setters.

    Prices are BigDecimal in the source; here a price is a decimal number
    unscaled * 10^-scale, which is what BigDecimal.toString prints. The
    createdAt/updatedAt timestamps and their @PrePersist/@PreUpdate hooks read
    the clock and are left out. */
module Apartments {
  import opened Common

  datatype ApartmentStatus = Available | UnderContract | Sold

  /** A BigDecimal: the value unscaled * 10^(-scale), for a scale of zero or
      more. The sample prices are literals with no exponent, so their scale is
      zero or more; a negative scale is not represented. */
  datatype Decimal = Decimal(unscaled: int, scale: nat)

  /** The persisted state of one apartment (every column but the id and the
      timestamps). `owner` is the owning user's id; None is a null owner. */
  datatype ApartmentRow = ApartmentRow(
    title: string,
    description: string,
    address: string,
    city: string,
    state: string,
    zipCode: string,
    price: Decimal,
    bedrooms: int,
    bathrooms: int,
    squareFeet: int,
    status: ApartmentStatus,
    imageUrl: Option<string>,
    owner: Option<nat>)

  // ---------------------------------------------------------------------
  // Validation constraints

  /** @NotBlank, as Hibernate Validator checks it: not empty after trim(). */
  predicate NotBlank(s: string)
  {
    !TrimmedEmpty(s)
  }

  /** The bean-validation constraints on the entity's fields: every text field
      @NotBlank, price @DecimalMin("0.0", inclusive = false), and bedrooms,
      bathrooms and squareFeet @Positive. */
  predicate ValidApartment(a: ApartmentRow)
  {
    && NotBlank(a.title) && NotBlank(a.description) && NotBlank(a.address)
    && NotBlank(a.city) && NotBlank(a.state) && NotBlank(a.zipCode)
    && a.price.unscaled > 0
    && a.bedrooms > 0 && a.bathrooms > 0 && a.squareFeet > 0
  }

  /** A text whose last character is above the space character is not blank. */
  lemma NotBlankByLast(s: string)
    requires |s| > 0 && s[|s| - 1] > ' '
    ensures NotBlank(s)
  {
  }

  /** An apartment passes validation when its six texts each end in a
      visible character and its price and counts are positive. */
  lemma ValidByLastCharacters(a: ApartmentRow)
    requires |a.title| > 0 && a.title[|a.title| - 1] > ' '
    requires |a.description| > 0 && a.description[|a.description| - 1] > ' '
    requires |a.address| > 0 && a.address[|a.address| - 1] > ' '
    requires |a.city| > 0 && a.city[|a.city| - 1] > ' '
    requires |a.state| > 0 && a.state[|a.state| - 1] > ' '
    requires |a.zipCode| > 0 && a.zipCode[|a.zipCode| - 1] > ' '
    requires a.price.unscaled > 0 && a.bedrooms > 0 && a.bathrooms > 0 && a.squareFeet > 0
    ensures ValidApartment(a)
  {
    NotBlankByLast(a.title);
    NotBlankByLast(a.description);
    NotBlankByLast(a.address);
    NotBlankByLast(a.city);
    NotBlankByLast(a.state);
    NotBlankByLast(a.zipCode);
  }

  // ---------------------------------------------------------------------
  // Status predicates

  predicate IsAvailable(a: ApartmentRow) { a.status == Available }

  predicate IsSold(a: ApartmentRow) { a.status == Sold }

  predicate IsUnderContract(a: ApartmentRow) { a.status == UnderContract }

  /** Exactly one of the three status predicates holds of any apartment. */
  lemma ExactlyOneStatus(a: ApartmentRow)
    ensures IsAvailable(a) || IsSold(a) || IsUnderContract(a)
    ensures !(IsAvailable(a) && IsSold(a))
    ensures !(IsAvailable(a) && IsUnderContract(a))
    ensures !(IsSold(a) && IsUnderContract(a))
  {
  }

  // ---------------------------------------------------------------------
  // getFullAddress

  /** address, city, state and zip code joined as "A, C, S Z". */
  function FullAddress(a: ApartmentRow): (r: string)
    ensures |r| == |a.address| + |a.city| + |a.state| + |a.zipCode| + 5
    ensures r[..|a.address|] == a.address
    ensures r[|a.address|..|a.address| + 2] == ", "
    ensures r[|a.address| + 2..|a.address| + 2 + |a.city|] == a.city
    ensures r[|a.address| + 2 + |a.city|..|a.address| + 4 + |a.city|] == ", "
    ensures r[|a.address| + 4 + |a.city|..|r| - |a.zipCode| - 1] == a.state
    ensures r[|r| - |a.zipCode|..] == a.zipCode
    ensures r[|r| - |a.zipCode| - 1] == ' '
  {
    a.address + ", " + a.city + ", " + a.state + " " + a.zipCode
  }

  // ---------------------------------------------------------------------
  // getFormattedPrice: "$" + BigDecimal.toString()

  function DigitChar(d: nat): char
    requires d < 10
  {
    "0123456789"[d]
  }

  predicate AllDigits(s: string)
  {
    forall i :: 0 <= i < |s| ==> '0' <= s[i] <= '9'
  }

  /** The decimal digits of n, without leading zeros ("0" for zero). */
  function NatDigits(n: nat): (s: string)
    ensures 1 <= |s| && AllDigits(s)
    decreases n
  {
    if n < 10 then [DigitChar(n)] else NatDigits(n / 10) + [DigitChar(n % 10)]
  }

  /** The number a digit string denotes (leading zeros allowed). */
  function DigitsValue(s: string): nat
    requires AllDigits(s)
    decreases |s|
  {
    if s == [] then 0 else DigitsValue(s[..|s| - 1]) * 10 + (s[|s| - 1] - '0') as nat
  }

  function Zeros(n: nat): (s: string)
    ensures |s| == n && forall i :: 0 <= i < n ==> s[i] == '0'
  {
    if n == 0 then "" else "0" + Zeros(n - 1)
  }

  function Pow10(n: nat): (r: nat)
    ensures r >= 1
  {
    if n == 0 then 1 else 10 * Pow10(n - 1)
  }

  function Abs(x: int): nat
  {
    if x < 0 then -x else x
  }

  /** The digits of the unscaled value, as BigDecimal.toString lays them out
      when the scale is positive and the adjusted exponent is at least -6:
      a decimal point `scale` digits from the right, and "0." plus padding zeros
      when there are no more digits than the scale. */
  function PlainFraction(c: string, scale: nat): string
  {
    if |c| > scale then c[..|c| - scale] + "." + c[|c| - scale..]
    else "0." + (Zeros(scale - |c|) + c)
  }

  /** BigDecimal's adjusted exponent: digits - 1 - scale. */
  function AdjustedExponent(d: Decimal): int
  {
    |NatDigits(Abs(d.unscaled))| - 1 - d.scale
  }

  /** BigDecimal.toString does not switch to exponent notation. */
  predicate PlainNotation(d: Decimal)
  {
    d.scale == 0 || AdjustedExponent(d) >= -6
  }

  /** BigDecimal.toString for a non-negative scale. */
  function DecimalString(d: Decimal): string
  {
    var c := NatDigits(Abs(d.unscaled));
    var sign := if d.unscaled < 0 then "-" else "";
    if d.scale == 0 then sign + c
    else if AdjustedExponent(d) >= -6 then sign + PlainFraction(c, d.scale)
    else
      sign + [c[0]] + (if |c| > 1 then "." + c[1..] else "")
      + "E-" + NatDigits(-AdjustedExponent(d))
  }

  /** getFormattedPrice */
  function FormattedPrice(a: ApartmentRow): (r: string)
    ensures |r| >= 2 && r[0] == '$'
  {
    "$" + DecimalString(a.price)
  }

  /** Position of the first '.' in s, or |s| when there is none. */
  function IndexOfDot(s: string): (i: nat)
    ensures i <= |s|
    ensures forall j :: 0 <= j < i ==> s[j] != '.'
    ensures i < |s| ==> s[i] == '.'
  {
    if s == [] then 0 else if s[0] == '.' then 0 else 1 + IndexOfDot(s[1..])
  }

  /** Reads back unsigned digits with an optional decimal point as
      (value, number of digits after the point). */
  function ParseUnsigned(digits: string): Option<(nat, nat)>
  {
    var i := IndexOfDot(digits);
    var whole := digits[..i];
    var fraction := if i < |digits| then digits[i + 1..] else "";
    if whole == [] || !AllDigits(whole) || !AllDigits(fraction) then None
    else
      AllDigitsConcat(whole, fraction);
      Some((DigitsValue(whole + fraction), |fraction|))
  }

  /** Reads back a formatted price in plain notation: "$", an optional "-",
      then unsigned digits with an optional decimal point. */
  function ParseFormattedPrice(s: string): Option<Decimal>
  {
    if |s| == 0 || s[0] != '$' then None else ParseSigned(s[1..])
  }

  /** Reads back an optional "-" followed by unsigned digits. */
  function ParseSigned(body: string): Option<Decimal>
  {
    var negative := |body| > 0 && body[0] == '-';
    match ParseUnsigned(if negative then body[1..] else body)
    case None => None
    case Some((v, scale)) => Some(Decimal(if negative then -(v as int) else v, scale))
  }

  lemma AllDigitsConcat(a: string, b: string)
    requires AllDigits(a) && AllDigits(b)
    ensures AllDigits(a + b)
  {
    forall i | 0 <= i < |a + b|
      ensures '0' <= (a + b)[i] <= '9'
    {
      if i < |a| { assert (a + b)[i] == a[i]; } else { assert (a + b)[i] == b[i - |a|]; }
    }
  }

  lemma ShiftDigit(x: nat, p: nat, y: nat, d: nat)
    ensures (x * p + y) * 10 + d == x * (10 * p) + (y * 10 + d)
  {
  }

  lemma {:induction false} DigitsValueConcat(a: string, b: string)
    requires AllDigits(a) && AllDigits(b)
    ensures AllDigits(a + b)
    ensures DigitsValue(a + b) == DigitsValue(a) * Pow10(|b|) + DigitsValue(b)
    decreases |b|
  {
    AllDigitsConcat(a, b);
    if b == [] {
      assert a + b == a;
    } else {
      var n := |b| - 1;
      var ab := a + b;
      assert ab[..|ab| - 1] == a + b[..n];
      assert ab[|ab| - 1] == b[n];
      assert b[..|b| - 1] == b[..n];
      DigitsValueConcat(a, b[..n]);
      var x, y, p, d := DigitsValue(a), DigitsValue(b[..n]), Pow10(n), (b[n] - '0') as nat;
      assert DigitsValue(ab) == DigitsValue(a + b[..n]) * 10 + d;
      assert DigitsValue(b) == y * 10 + d;
      assert Pow10(|b|) == 10 * p;
      ShiftDigit(x, p, y, d);
    }
  }

  lemma {:induction false} NatDigitsValue(n: nat)
    ensures DigitsValue(NatDigits(n)) == n
    decreases n
  {
    if n >= 10 {
      var s := NatDigits(n);
      assert s[..|s| - 1] == NatDigits(n / 10);
      NatDigitsValue(n / 10);
    }
  }

  lemma {:induction false} ZerosValue(n: nat)
    ensures AllDigits(Zeros(n)) && DigitsValue(Zeros(n)) == 0
    decreases n
  {
    if n > 0 {
      ZerosValue(n - 1);
      DigitsValueConcat("0", Zeros(n - 1));
      assert DigitsValue("0") == 0 by {
        assert "0"[..0] == "";
      }
    }
  }

  lemma NoDotInDigits(s: string)
    requires AllDigits(s)
    ensures IndexOfDot(s) == |s|
  {
    if IndexOfDot(s) < |s| {
      assert s[IndexOfDot(s)] == '.';
    }
  }

  /** "W.F" splits back at its first '.' into W and F when W has no '.'. */
  lemma SplitAtDot(whole: string, frac: string)
    requires AllDigits(whole)
    ensures var s := whole + "." + frac;
      && IndexOfDot(s) == |whole|
      && s[..|whole|] == whole
      && s[|whole| + 1..] == frac
  {
    var s := whole + "." + frac;
    assert s[|whole|] == '.';
    assert forall j :: 0 <= j < |whole| ==> s[j] == whole[j];
    assert s[..|whole|] == whole;
    assert s[|whole| + 1..] == frac;
  }

  /** Round trip of the part after "$" (and after the sign): the plain layout
      of the digits c at a positive scale reads back as the same number and
      scale. */
  lemma PlainFractionReadsBack(c: string, scale: nat)
    requires AllDigits(c) && 1 <= |c| && scale > 0
    ensures var s := PlainFraction(c, scale);
      var i := IndexOfDot(s);
      && i < |s|
      && s[..i] != [] && AllDigits(s[..i]) && AllDigits(s[i + 1..])
      && |s[i + 1..]| == scale
      && DigitsValue(s[..i] + s[i + 1..]) == DigitsValue(c)
  {
    if |c| > scale {
      SplitFractionReadsBack(c, scale);
    } else {
      PaddedFractionReadsBack(c, scale);
    }
  }

  /** The layout with digits before the point: the two halves rejoin to c. */
  lemma SplitFractionReadsBack(c: string, scale: nat)
    requires AllDigits(c) && scale < |c|
    ensures var s := c[..|c| - scale] + "." + c[|c| - scale..];
      var i := IndexOfDot(s);
      && i == |c| - scale
      && s[..i] == c[..|c| - scale] && s[i + 1..] == c[|c| - scale..]
      && AllDigits(s[..i]) && AllDigits(s[i + 1..])
      && s[..i] + s[i + 1..] == c
  {
    var whole, frac := c[..|c| - scale], c[|c| - scale..];
    SplitAtDot(whole, frac);
    assert whole + frac == c;
  }

  /** The layout "0." + zeros + c splits at index 1. */
  lemma PaddedLayout(z: nat, c: string)
    requires AllDigits(c)
    ensures var s := "0." + (Zeros(z) + c);
      && IndexOfDot(s) == 1 && s[..1] == "0" && s[2..] == Zeros(z) + c
      && AllDigits(Zeros(z) + c)
  {
    var frac := Zeros(z) + c;
    ZerosValue(z);
    AllDigitsConcat(Zeros(z), c);
    var s := "0." + frac;
    assert s[0] == '0' && s[1] == '.';
    assert s[1..][0] == '.';
    assert s[..1] == "0";
    assert s[2..] == frac;
  }

  /** Leading zeros do not change the value of c. */
  lemma PaddedValue(z: nat, c: string)
    requires AllDigits(c)
    ensures AllDigits("0" + (Zeros(z) + c))
    ensures DigitsValue("0" + (Zeros(z) + c)) == DigitsValue(c)
  {
    var zz := Zeros(z + 1);
    assert zz == "0" + Zeros(z);
    assert "0" + (Zeros(z) + c) == zz + c;
    ZerosValue(z + 1);
    DigitsValueConcat(zz, c);
  }

  lemma PaddedFractionReadsBack(c: string, scale: nat)
    requires AllDigits(c) && 1 <= |c| <= scale
    ensures var s := "0." + (Zeros(scale - |c|) + c);
      var i := IndexOfDot(s);
      && i < |s|
      && s[..i] == "0" && AllDigits(s[i + 1..])
      && |s[i + 1..]| == scale
      && DigitsValue(s[..i] + s[i + 1..]) == DigitsValue(c)
  {
    var z := scale - |c|;
    PaddedLayout(z, c);
    PaddedValue(z, c);
  }

  /** getFormattedPrice loses nothing: in plain notation the formatted price
      reads back as the same number with the same scale. */
  lemma FormattedPriceRoundTrip(a: ApartmentRow)
    requires PlainNotation(a.price)
    ensures ParseFormattedPrice(FormattedPrice(a)) == Some(a.price)
  {
    var d := a.price;
    var tail := PlainDigits(d);
    PlainDigitsReadBack(d);
    SignedReadsBack(d.unscaled < 0, tail, Abs(d.unscaled), d.scale);
    assert Decimal(if d.unscaled < 0 then -(Abs(d.unscaled) as int) else Abs(d.unscaled), d.scale) == d;
  }

  /** The unsigned part of a price in plain notation. */
  function PlainDigits(d: Decimal): string
  {
    var c := NatDigits(Abs(d.unscaled));
    if d.scale == 0 then c else PlainFraction(c, d.scale)
  }

  /** In plain notation, toString is the sign and the unsigned part, and the
      unsigned part reads back as the magnitude and the scale. */
  lemma PlainDigitsReadBack(d: Decimal)
    requires PlainNotation(d)
    ensures DecimalString(d) == (if d.unscaled < 0 then "-" else "") + PlainDigits(d)
    ensures |PlainDigits(d)| > 0 && PlainDigits(d)[0] != '-'
    ensures ParseUnsigned(PlainDigits(d)) == Some((Abs(d.unscaled), d.scale))
  {
    if d.scale == 0 {
      WholeReadsBack(Abs(d.unscaled));
    } else {
      FractionReadsBack(Abs(d.unscaled), d.scale);
    }
  }

  lemma SignedReadsBack(negative: bool, tail: string, n: nat, scale: nat)
    requires |tail| > 0 && tail[0] != '-'
    requires ParseUnsigned(tail) == Some((n, scale))
    ensures ParseFormattedPrice("$" + ((if negative then "-" else "") + tail))
            == Some(Decimal(if negative then -(n as int) else n, scale))
  {
    var body := (if negative then "-" else "") + tail;
    DollarBody(body);
    if negative {
      assert body[0] == '-' && body[1..] == tail;
    } else {
      assert body == tail;
    }
  }

  /** "$" + body is read by reading body. */
  lemma DollarBody(body: string)
    ensures ParseFormattedPrice("$" + body) == ParseSigned(body)
  {
    var s := "$" + body;
    assert s[0] == '$';
    assert s[1..] == body;
  }

  /** At scale zero the digits read back as the value. */
  lemma WholeReadsBack(n: nat)
    ensures var c := NatDigits(n);
      && c[0] != '-'
      && ParseUnsigned(c) == Some((n, 0))
  {
    var c := NatDigits(n);
    NatDigitsValue(n);
    NoDotInDigits(c);
    assert c[..|c|] == c;
    assert c + "" == c;
  }

  /** At a positive scale the plain layout reads back as value and scale. */
  lemma FractionReadsBack(n: nat, scale: nat)
    requires scale > 0
    ensures var s := PlainFraction(NatDigits(n), scale);
      && s[0] != '-'
      && ParseUnsigned(s) == Some((n, scale))
  {
    var c := NatDigits(n);
    NatDigitsValue(n);
    PlainFractionReadsBack(c, scale);
    var s := PlainFraction(c, scale);
    assert s[0] == '0' || s[0] == c[0];
  }

  // ---------------------------------------------------------------------
  // The entity object

  /** An Apartment object as the controllers and services hold it; the
      repository stores its Row(). */
  class Apartment {
    var id: Option<nat>
    var title: string
    var description: string
    var address: string
    var city: string
    var state: string
    var zipCode: string
    var price: Decimal
    var bedrooms: int
    var bathrooms: int
    var squareFeet: int
    var status: ApartmentStatus
    var imageUrl: Option<string>
    var owner: Option<nat>

    function Row(): ApartmentRow
      reads this
    {
      ApartmentRow(title, description, address, city, state, zipCode, price,
                   bedrooms, bathrooms, squareFeet, status, imageUrl, owner)
    }

    /** new Apartment(): fields the source leaves null are empty text and
        zero here; the status starts AVAILABLE and there is no owner. */
    constructor Blank()
      ensures id == None && status == Available && owner == None && imageUrl == None
      ensures Row() == ApartmentRow("", "", "", "", "", "", Decimal(0, 0), 0, 0, 0, Available, None, None)
    {
      id, title, description, address, city, state, zipCode := None, "", "", "", "", "", "";
      price, bedrooms, bathrooms, squareFeet := Decimal(0, 0), 0, 0, 0;
      status, imageUrl, owner := Available, None, None;
    }

    /** The ten-argument constructor: the given fields, status AVAILABLE, no
        owner and no image. */
    constructor (title: string, description: string, address: string, city: string,
                 state: string, zipCode: string, price: Decimal,
                 bedrooms: int, bathrooms: int, squareFeet: int)
      ensures id == None && status == Available && owner == None && imageUrl == None
      ensures Row() == ApartmentRow(title, description, address, city, state, zipCode, price,
                                    bedrooms, bathrooms, squareFeet, Available, None, None)
    {
      this.id := None;
      this.title, this.description, this.address := title, description, address;
      this.city, this.state, this.zipCode := city, state, zipCode;
      this.price, this.bedrooms, this.bathrooms, this.squareFeet := price, bedrooms, bathrooms, squareFeet;
      this.status, this.imageUrl, this.owner := Available, None, None;
    }

    method SetId(v: Option<nat>)
      modifies this
      ensures id == v && Row() == old(Row())
    {
      id := v;
    }

    method SetTitle(v: string)
      modifies this
      ensures id == old(id) && Row() == old(Row()).(title := v)
    {
      title := v;
    }

    method SetDescription(v: string)
      modifies this
      ensures id == old(id) && Row() == old(Row()).(description := v)
    {
      description := v;
    }

    method SetAddress(v: string)
      modifies this
      ensures id == old(id) && Row() == old(Row()).(address := v)
    {
      address := v;
    }

    method SetCity(v: string)
      modifies this
      ensures id == old(id) && Row() == old(Row()).(city := v)
    {
      city := v;
    }

    method SetState(v: string)
      modifies this
      ensures id == old(id) && Row() == old(Row()).(state := v)
    {
      state := v;
    }

    method SetZipCode(v: string)
      modifies this
      ensures id == old(id) && Row() == old(Row()).(zipCode := v)
    {
      zipCode := v;
    }

    method SetPrice(v: Decimal)
      modifies this
      ensures id == old(id) && Row() == old(Row()).(price := v)
    {
      price := v;
    }

    method SetBedrooms(v: int)
      modifies this
      ensures id == old(id) && Row() == old(Row()).(bedrooms := v)
    {
      bedrooms := v;
    }

    method SetBathrooms(v: int)
      modifies this
      ensures id == old(id) && Row() == old(Row()).(bathrooms := v)
    {
      bathrooms := v;
    }

    method SetSquareFeet(v: int)
      modifies this
      ensures id == old(id) && Row() == old(Row()).(squareFeet := v)
    {
      squareFeet := v;
    }

    /** setStatus: any status is accepted, whatever the current one. */
    method SetStatus(v: ApartmentStatus)
      modifies this
      ensures id == old(id) && Row() == old(Row()).(status := v)
    {
      status := v;
    }

    method SetImageUrl(v: Option<string>)
      modifies this
      ensures id == old(id) && Row() == old(Row()).(imageUrl := v)
    {
      imageUrl := v;
    }

    method SetOwner(v: Option<nat>)
      modifies this
      ensures id == old(id) && Row() == old(Row()).(owner := v)
    {
      owner := v;
    }
  }
}

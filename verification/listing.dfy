/**
  The small list and query-string rules of scripts/site.js: how many
  services a container shows (its `data-limit` read by `Number.parseInt`),
  the projects of the home page, the project requested in the address, and
  the product summary of the order page read from the query string that a
  shop card's order link carries.
*/
module Listing {
  import opened Wrappers
  import opened Text
  import opened Seqs
  import opened Content

  /** The text after a leading sign. */
  function Unsigned(t: string): (u: string)
    ensures |u| <= |t|
  {
    if t != [] && (t[0] == '-' || t[0] == '+') then t[1..] else t
  }

  /** An optional sign and the longest run of decimal digits after it; `None` when there is none. */
  function SignedDigits(t: string): (r: Option<int>)
    ensures r.Some? <==> LeadingDigits(Unsigned(t)) != []
    ensures r.Some? && r.value > 0 ==> t[0] != '-'
  {
    var d := LeadingDigits(Unsigned(t));
    if d == [] then None
    else if t[0] == '-' then Some(-(DigitsValue(d) as int))
    else Some(DigitsValue(d))
  }

  /**
    `Number.parseInt(s, 10)`: leading white space skipped, an optional sign,
    then the longest run of decimal digits; `None` (NaN) when there is none.
  */
  function ParseInt(s: string): (r: Option<int>)
    ensures r.Some? <==> LeadingDigits(Unsigned(TrimStart(s))) != []
    ensures r.Some? && r.value > 0 ==> TrimStart(s)[0] != '-'
  {
    SignedDigits(TrimStart(s))
  }

  function DigitChar(v: int): (c: char)
    requires 0 <= v < 10
    ensures IsDigit(c) && c as int - '0' as int == v
  {
    ('0' as int + v) as char
  }

  /** The decimal numeral of `n`, as the attribute `data-limit="n"` holds it. */
  function Decimal(n: nat): (d: string)
    ensures d != [] && AllDigits(d)
  {
    if n < 10 then [DigitChar(n)] else Decimal(n / 10) + [DigitChar(n % 10)]
  }

  lemma {:induction false} DecimalValue(n: nat)
    ensures DigitsValue(Decimal(n)) == n
  {
    if n >= 10 {
      DecimalValue(n / 10);
      var d := Decimal(n);
      assert d[..|d| - 1] == Decimal(n / 10);
    }
  }

  /** `parseInt` reads a numeral back as its number. */
  lemma ParseIntDecimal(n: nat)
    ensures ParseInt(Decimal(n)) == Some(n)
  {
    var d := Decimal(n);
    assert [] + [] + d + [] == d;
    ParseIntValue([], [], d, []);
    DecimalValue(n);
  }

  /**
    `parseInt` on white space, an optional sign, a run of digits and a rest
    that does not start with a digit: the signed number of the digits, the
    rest ignored (" 3", "+3" and "3 items" all read as 3).
  */
  lemma ParseIntValue(ws: string, sign: string, d: string, rest: string)
    requires forall i :: 0 <= i < |ws| ==> IsSpace(ws[i])
    requires sign == "" || sign == "+" || sign == "-"
    requires AllDigits(d) && d != []
    requires rest == [] || !IsDigit(rest[0])
    ensures ParseInt(ws + sign + d + rest) == Some(if sign == "-" then -(DigitsValue(d) as int) else DigitsValue(d))
  {
    SpacesBeforeNumeral(ws, sign, d, rest);
    ParseSigned(sign, d, rest);
  }

  /** White space before a signed numeral is what `parseInt` skips. */
  lemma SpacesBeforeNumeral(ws: string, sign: string, d: string, rest: string)
    requires forall i :: 0 <= i < |ws| ==> IsSpace(ws[i])
    requires sign == "" || sign == "+" || sign == "-"
    requires AllDigits(d) && d != []
    ensures TrimStart(ws + sign + d + rest) == sign + d + rest
  {
    var t := sign + d + rest;
    assert ws + sign + d + rest == ws + t;
    SignedNumeral(sign, d, rest);
    TrimStartSpaces(ws, t);
  }

  /** A signed numeral reads as its signed number, whatever non-digit follows it. */
  lemma ParseSigned(sign: string, d: string, rest: string)
    requires sign == "" || sign == "+" || sign == "-"
    requires AllDigits(d) && d != []
    requires rest == [] || !IsDigit(rest[0])
    ensures SignedDigits(sign + d + rest) == Some(if sign == "-" then -(DigitsValue(d) as int) else DigitsValue(d))
  {
    SignedNumeral(sign, d, rest);
    LeadingDigitsOf(d, rest);
  }

  /** A signed numeral starts with no white space, and its sign comes off whole. */
  lemma SignedNumeral(sign: string, d: string, rest: string)
    requires sign == "" || sign == "+" || sign == "-"
    requires AllDigits(d) && d != []
    ensures !IsSpace((sign + d + rest)[0])
    ensures (sign + d + rest)[0] == '-' <==> sign == "-"
    ensures Unsigned(sign + d + rest) == d + rest
  {
    var t := sign + d + rest;
    if sign == "" {
      assert t == d + rest && t[0] == d[0];
      assert IsDigit(t[0]);
    } else {
      assert t[0] == sign[0] && t[1..] == d + rest;
    }
  }

  /** Leading white space is skipped up to the first other character. */
  lemma {:induction false} TrimStartSpaces(ws: string, t: string)
    requires forall i :: 0 <= i < |ws| ==> IsSpace(ws[i])
    requires t == [] || !IsSpace(t[0])
    ensures TrimStart(ws + t) == t
  {
    if ws == [] {
      assert ws + t == t;
    } else {
      assert (ws + t)[0] == ws[0] && (ws + t)[1..] == ws[1..] + t;
      TrimStartSpaces(ws[1..], t);
    }
  }

  /**
    The services a container shows: the first `limit` of them for a positive
    integer limit, otherwise all of them (`limitAttr` is "" when the
    attribute is absent).
  */
  function ShownServices<S>(services: seq<S>, limitAttr: string): (r: seq<S>)
    ensures r <= services
    ensures var limit := ParseInt(limitAttr);
      if limit.Some? && limit.value > 0 then |r| == (if limit.value < |services| then limit.value else |services|)
      else r == services
  {
    var limit := ParseInt(limitAttr);
    if limit.Some? && limit.value > 0 then Take(services, limit.value) else services
  }

  /** A container with `data-limit="k"` for a positive `k` shows the first `k` services. */
  lemma LimitShowsFirst<S>(services: seq<S>, k: nat)
    requires k > 0
    ensures ShownServices(services, Decimal(k)) == Take(services, k)
  {
    ParseIntDecimal(k);
  }

  /** A container whose limit is not a positive number shows every service. */
  lemma NoLimitShowsAll<S>(services: seq<S>, limitAttr: string)
    requires forall i :: 0 <= i < |limitAttr| ==> !IsDigit(limitAttr[i])
    ensures ShownServices(services, limitAttr) == services
  {
    var u := Unsigned(TrimStart(limitAttr));
    assert u == limitAttr[|limitAttr| - |u|..];
    if u != [] {
      assert u[0] == limitAttr[|limitAttr| - |u|];
    }
  }

  /** The home page shows the first three projects, in order. */
  function HomeProjects(projects: seq<Project>): (r: seq<Project>)
    ensures r <= projects
    ensures |r| == if |projects| < 3 then |projects| else 3
  {
    Take(projects, 3)
  }

  function HasId(id: string): Project -> bool {
    (p: Project) => p.id == id
  }

  /**
    The project opened from `?project=…`: none when the parameter is absent
    or empty, otherwise the first project with that id, if any.
  */
  function RequestedProject(projects: seq<Project>, requested: Option<string>): (r: Option<Project>)
    ensures requested.None? || requested.value == "" ==> r.None?
    ensures requested.Some? && requested.value != "" ==>
      && (r.None? <==> forall i :: 0 <= i < |projects| ==> projects[i].id != requested.value)
      && (r.Some? ==> exists i :: FirstMatch(projects, HasId(requested.value), i) && projects[i] == r.value)
  {
    if requested.None? || requested.value == "" then None
    else Find(projects, HasId(requested.value))
  }

  /** A query string as `URLSearchParams` holds it: name-value pairs in order, already decoded. */
  type Query = seq<(string, string)>

  /** `params.get(key)`: the value of the first pair with that name. */
  function Param(query: Query, key: string): (r: Option<string>)
    ensures r.None? <==> forall i :: 0 <= i < |query| ==> query[i].0 != key
    ensures r.Some? ==> exists i :: 0 <= i < |query| && query[i] == (key, r.value)
                                   && forall j :: 0 <= j < i ==> query[j].0 != key
  {
    if query == [] then None
    else if query[0].0 == key then Some(query[0].1)
    else
      var r := Param(query[1..], key);
      if r.Some? then
        var i :| 0 <= i < |query[1..]| && query[1..][i] == (key, r.value)
                 && forall j :: 0 <= j < i ==> query[1..][j].0 != key;
        assert query[i + 1] == (key, r.value);
        r
      else r
  }

  /** `params.get(key) || fallback`. */
  function ParamOr(query: Query, key: string, fallback: string): string {
    var v := Param(query, key);
    if v.Some? then OrElse(v.value, fallback) else fallback
  }

  const NoRef := "—"
  const DefaultProductName := "Produit 3DPANNE"
  const PriceOnRequest := "Sur devis"
  const NoType := "—"

  /** The product summary of the order page, and the value of its hidden `orderProduct` field. */
  datatype OrderSummary = OrderSummary(ref: string, name: string, price: string, productType: string, hidden: string)

  /** `initOrderForm`: each missing or empty parameter falls back to its fixed default. */
  function OrderSummaryOf(query: Query): (s: OrderSummary)
    ensures s.ref != "" && s.name != "" && s.price != "" && s.productType != ""
    ensures s.hidden == s.ref + " – " + s.name
  {
    var ref := ParamOr(query, "ref", NoRef);
    var name := ParamOr(query, "name", DefaultProductName);
    OrderSummary(ref, name, ParamOr(query, "price", PriceOnRequest), ParamOr(query, "type", NoType),
                 ref + " – " + name)
  }

  /** The query of a shop card's order link (`searchParams.set` on a fresh URL, in this order). */
  function OrderLink(p: Product): Query {
    [("ref", p.ref), ("name", p.name), ("price", p.price), ("type", p.productType)]
  }

  /**
    The order page shows the product of the card whose link was followed,
    with the defaults for the fields it lacks; in particular a product
    without a price shows "Sur devis" on both pages.
  */
  lemma OrderLinkSummary(p: Product)
    ensures OrderSummaryOf(OrderLink(p)) == OrderSummary(
      OrElse(p.ref, NoRef), OrElse(p.name, DefaultProductName), OrElse(p.price, PriceOnRequest),
      OrElse(p.productType, NoType), OrElse(p.ref, NoRef) + " – " + OrElse(p.name, DefaultProductName))
  {
    var q := OrderLink(p);
    assert "ref" != "name" && "ref" != "price" && "ref" != "type";
    assert "name" != "price" && "name" != "type" && "price" != "type";
    assert Param(q, "ref") == Some(p.ref);
    assert Param(q[1..], "name") == Some(p.name);
    assert Param(q[1..][1..], "price") == Some(p.price);
    assert Param(q[1..][1..][1..], "type") == Some(p.productType);
  }

  /** A product field as it reaches `searchParams.set`: a string, or absent from the JSON record. */
  datatype FieldValue = Given(text: string) | Absent

  /** `searchParams.set` turns its value into a string: an absent field becomes "undefined". */
  function ParamText(v: FieldValue): (t: string)
    ensures v.Absent? ==> t == "undefined"
    ensures v.Given? ==> t == v.text
  {
    if v.Absent? then "undefined" else v.text
  }

  /** The order link exactly as the shop card builds it, fields taken as they are in the record. */
  function OrderLinkAsWritten(ref: FieldValue, name: FieldValue, price: FieldValue, productType: FieldValue): Query {
    [("ref", ParamText(ref)), ("name", ParamText(name)), ("price", ParamText(price)), ("type", ParamText(productType))]
  }

  /**
    A product record with no `price` field shows "Sur devis" on its shop card,
    but the order page it links to shows the price "undefined".
  */
  lemma MissingPriceShowsUndefined(ref: string, name: string, productType: string)
    ensures OrderSummaryOf(OrderLinkAsWritten(Given(ref), Given(name), Absent, Given(productType))).price == "undefined"
    ensures "undefined" != PriceOnRequest
  {
    var q := OrderLinkAsWritten(Given(ref), Given(name), Absent, Given(productType));
    assert "price" != "ref" && "price" != "name";
    assert Param(q[1..][1..], "price") == Some("undefined");
    assert Param(q, "price") == Some("undefined");
  }

  /** An address without parameters shows every default. */
  lemma OrderDefaults()
    ensures OrderSummaryOf([]) == OrderSummary(NoRef, DefaultProductName, PriceOnRequest, NoType,
                                               NoRef + " – " + DefaultProductName)
  {
  }
}

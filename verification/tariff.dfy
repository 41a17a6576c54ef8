/** The shipping tariff resolver behind `get_cdek_shipping_cost`: a city is
    normalised and mapped to a zone, the zone pair selects a tariff class
    (directly, or by whether the origin city is one of that pair's special
    cities), and the class and delivery method select a base price and a
    per-kilogram surcharge. The tables themselves are parameters. */
module Tariff {
  import opened Text
  import opened Wrappers
  import opened Money

  datatype Method = Courier | Pickup

  /** The delivery method as the checkout form names it; any other text has
      no row in the tariff table. */
  function ParseMethod(s: string): (m: Option<Method>)
    ensures m == Some(Courier) <==> s == "Курьером"
    ensures m == Some(Pickup) <==> s == "Пункт выдачи"
  {
    if s == "Курьером" then Some(Courier)
    else if s == "Пункт выдачи" then Some(Pickup)
    else None
  }

  /** A zone-pair matrix entry: a tariff class, or a choice between two
      classes made by membership of the origin city in a special set. */
  datatype MatrixEntry = Flat(cls: int) | Conditional(ifSpecial: int, otherwise: int, special: set<string>)

  datatype Price = Price(base: real, perKg: real)

  datatype Tables = Tables(
    zones: map<string, int>,
    matrix: map<(int, int), MatrixEntry>,
    prices: map<(int, Method), Price>)

  /** Prices are non-negative whole kopecks. */
  predicate WellFormed(t: Tables) {
    forall key :: key in t.prices ==>
      IsCents(t.prices[key].base) && t.prices[key].base >= 0.0 && t.prices[key].perKg >= 0.0
  }

  /** The tariff class reserved for deliveries within one city. */
  const SameCityClass: int := 0

  /** `get_city_zone`: the zone of the trimmed, lower-cased city name. */
  function CityZone(t: Tables, city: string): (z: Option<int>)
    ensures z.Some? <==> Normalize(city) in t.zones
    ensures z.Some? ==> z.value == t.zones[Normalize(city)]
  {
    var key := Normalize(city);
    if key in t.zones then Some(t.zones[key]) else None
  }

  /** `determine_tariff_zone`: the class for a zone pair; `None` when the pair
      has no matrix entry. */
  function TariffClass(t: Tables, fromZone: int, toZone: int, fromCity: string, toCity: string): (c: Option<int>)
    ensures c.Some? <==> (fromZone, toZone) in t.matrix
  {
    if (fromZone, toZone) !in t.matrix then None
    else
      match t.matrix[(fromZone, toZone)]
      case Flat(cls) => Some(cls)
      case Conditional(a, b, special) => Some(if Normalize(fromCity) in special then a else b)
  }

  /** The unrounded price of a parcel: the base price up to one kilogram,
      and the per-kilogram surcharge on every kilogram beyond it. */
  function RawCost(p: Price, weight: real): real {
    if weight <= 1.0 then p.base else p.base + (weight - 1.0) * p.perKg
  }

  /** `calculate_shipping_cost`, quantised to two decimal places; `None`
      when the class has no row for the method. */
  function ShippingCost(t: Tables, cls: int, m: Method, weight: real): (r: Option<real>)
    ensures r.Some? <==> (cls, m) in t.prices
    ensures r.Some? ==> IsCents(r.value)
    ensures r.Some? ==> NearestKopeck(RawCost(t.prices[(cls, m)], weight), r.value)
  {
    if (cls, m) in t.prices then Some(Round2(RawCost(t.prices[(cls, m)], weight))) else None
  }

  /** `get_cdek_shipping_cost`: the quote for one parcel, or `None` when the
      lane cannot be quoted. A city shipping to itself uses the same-city
      class without consulting the zone tables. */
  function Estimate(t: Tables, fromCity: string, toCity: string, weight: real, how: string): (r: Option<real>)
    ensures r.Some? ==> ParseMethod(how).Some? && IsCents(r.value)
  {
    match ParseMethod(how)
    case None => None
    case Some(m) =>
      if Normalize(fromCity) == Normalize(toCity) then ShippingCost(t, SameCityClass, m, weight)
      else
        match (CityZone(t, fromCity), CityZone(t, toCity))
        case (Some(a), Some(b)) =>
          (match TariffClass(t, a, b, fromCity, toCity)
           case Some(cls) => ShippingCost(t, cls, m, weight)
           case None => None)
        case _ => None
  }

  // ---------------------------------------------------------------------
  // Properties

  /** Zone lookup ignores surrounding whitespace and repeated normalisation. */
  lemma CityZoneNormalized(t: Tables, city: string, pre: string, post: string)
    requires AllSpace(pre) && AllSpace(post)
    ensures CityZone(t, pre + city + post) == CityZone(t, city)
    ensures CityZone(t, Normalize(city)) == CityZone(t, city)
  {
    NormalizePadded(city, pre, post);
    NormalizeIdempotent(city);
  }

  /** A flat entry is returned unchanged; a conditional one yields its first
      class exactly when the normalised origin city is special. */
  lemma TariffClassEntries(t: Tables, fromZone: int, toZone: int, fromCity: string, toCity: string)
    requires (fromZone, toZone) in t.matrix
    ensures t.matrix[(fromZone, toZone)].Flat? ==>
      TariffClass(t, fromZone, toZone, fromCity, toCity) == Some(t.matrix[(fromZone, toZone)].cls)
    ensures t.matrix[(fromZone, toZone)].Conditional? && Normalize(fromCity) in t.matrix[(fromZone, toZone)].special ==>
      TariffClass(t, fromZone, toZone, fromCity, toCity) == Some(t.matrix[(fromZone, toZone)].ifSpecial)
    ensures t.matrix[(fromZone, toZone)].Conditional? && Normalize(fromCity) !in t.matrix[(fromZone, toZone)].special ==>
      TariffClass(t, fromZone, toZone, fromCity, toCity) == Some(t.matrix[(fromZone, toZone)].otherwise)
  {
  }

  /** Up to one kilogram the quote is the base price exactly; beyond it,
      the base plus the surcharge on the excess, to the nearest kopeck. */
  lemma ShippingCostCases(t: Tables, cls: int, m: Method, weight: real)
    requires WellFormed(t) && (cls, m) in t.prices
    ensures weight <= 1.0 ==> ShippingCost(t, cls, m, weight) == Some(t.prices[(cls, m)].base)
    ensures weight > 1.0 ==>
      var p := t.prices[(cls, m)];
      var r := ShippingCost(t, cls, m, weight).value;
      NearestKopeck(p.base + (weight - 1.0) * p.perKg, r)
  {
  }

  /** A heavier parcel never costs less, and no quote is negative. */
  lemma ShippingCostMonotone(t: Tables, cls: int, m: Method, w1: real, w2: real)
    requires WellFormed(t) && (cls, m) in t.prices
    requires w1 <= w2
    ensures ShippingCost(t, cls, m, w1).value <= ShippingCost(t, cls, m, w2).value
    ensures ShippingCost(t, cls, m, w1).value >= 0.0
  {
    var p := t.prices[(cls, m)];
    assert p.base >= 0.0 && p.perKg >= 0.0 && IsCents(p.base);
    RawCostMonotone(p, w1, w2);
    assert ShippingCost(t, cls, m, w1).value == Round2(RawCost(p, w1));
    assert ShippingCost(t, cls, m, w2).value == Round2(RawCost(p, w2));
    Round2Monotone(RawCost(p, w1), RawCost(p, w2));
    Round2Monotone(p.base, RawCost(p, w1));
  }

  /** With a non-negative surcharge the raw cost grows with the weight and
      never drops below the base. */
  lemma RawCostMonotone(p: Price, w1: real, w2: real)
    requires p.perKg >= 0.0 && w1 <= w2
    ensures p.base <= RawCost(p, w1) <= RawCost(p, w2)
  {
    if w1 > 1.0 {
      ScaleMonotone(w1 - 1.0, w2 - 1.0, p.perKg);
      ScaleMonotone(0.0, w1 - 1.0, p.perKg);
    } else if w2 > 1.0 {
      ScaleMonotone(0.0, w2 - 1.0, p.perKg);
    }
  }

  lemma ScaleMonotone(a: real, b: real, k: real)
    requires a <= b && k >= 0.0
    ensures a * k <= b * k
  {
  }

  /** Origin equal to destination after normalisation always takes the
      same-city class, whatever zones the tables give the city. */
  lemma SameCityQuote(t: Tables, fromCity: string, toCity: string, weight: real, m: Method, how: string)
    requires ParseMethod(how) == Some(m)
    requires Normalize(fromCity) == Normalize(toCity)
    ensures Estimate(t, fromCity, toCity, weight, how) == ShippingCost(t, SameCityClass, m, weight)
  {
  }

  /** Distinct cities one of which has no zone cannot be quoted, and neither
      can any method text other than the two listed. */
  lemma UnquotableLanes(t: Tables, fromCity: string, toCity: string, weight: real, how: string)
    ensures ParseMethod(how).None? ==> Estimate(t, fromCity, toCity, weight, how).None?
    ensures Normalize(fromCity) != Normalize(toCity) && (CityZone(t, fromCity).None? || CityZone(t, toCity).None?)
      ==> Estimate(t, fromCity, toCity, weight, how).None?
  {
  }

  /** Between two zoned cities the quote is the class the matrix selects, priced. */
  lemma InterZoneQuote(t: Tables, fromCity: string, toCity: string, weight: real, m: Method, how: string)
    requires ParseMethod(how) == Some(m)
    requires Normalize(fromCity) != Normalize(toCity)
    requires CityZone(t, fromCity).Some? && CityZone(t, toCity).Some?
    ensures var cls := TariffClass(t, CityZone(t, fromCity).value, CityZone(t, toCity).value, fromCity, toCity);
      Estimate(t, fromCity, toCity, weight, how) == (if cls.Some? then ShippingCost(t, cls.value, m, weight) else None)
  {
  }

  /** Every quote from well-formed tables is a non-negative amount. */
  lemma EstimateNonNegative(t: Tables, fromCity: string, toCity: string, weight: real, how: string)
    requires WellFormed(t)
    requires Estimate(t, fromCity, toCity, weight, how).Some?
    ensures Estimate(t, fromCity, toCity, weight, how).value >= 0.0
  {
    var m := ParseMethod(how).value;
    if Normalize(fromCity) == Normalize(toCity) {
      ShippingCostMonotone(t, SameCityClass, m, weight, weight);
    } else {
      var cls := TariffClass(t, CityZone(t, fromCity).value, CityZone(t, toCity).value, fromCity, toCity).value;
      ShippingCostMonotone(t, cls, m, weight, weight);
    }
  }

  // ---------------------------------------------------------------------
  // The documented lookups, on a table holding just those cities

  function SampleTables(base0: real, perKg0: real): Tables {
    Tables(
      map["москва" := 1, "санкт-петербург" := 1, "балашиха" := 2, "казань" := 3],
      map[(1, 3) := Flat(3)],
      map[(0, Courier) := Price(base0, perKg0)])
  }

  lemma SampleZones(base0: real, perKg0: real)
    ensures CityZone(SampleTables(base0, perKg0), "Москва") == Some(1)
    ensures CityZone(SampleTables(base0, perKg0), "  " + "Балашиха" + "  ") == Some(2)
    ensures CityZone(SampleTables(base0, perKg0), "Неизвестный город") == None
  {
    MoscowZone(base0, perKg0);
    BalashikhaZone(base0, perKg0);
    UnknownCity();
  }

  lemma MoscowZone(base0: real, perKg0: real)
    ensures CityZone(SampleTables(base0, perKg0), "Москва") == Some(1)
  {
    NormalizeMoscow();
  }

  /** A city typed with a trailing no-break space reaches the same zone:
      `strip()` removes every Unicode space. */
  lemma NoBreakSpaceZone(base0: real, perKg0: real)
    ensures CityZone(SampleTables(base0, perKg0), "Москва" + ['\U{A0}']) == Some(1)
  {
    assert AllSpace(['\U{A0}']) by {
      assert IsSpace(['\U{A0}'][0]);
    }
    assert AllSpace("");
    assert "" + "Москва" + ['\U{A0}'] == "Москва" + ['\U{A0}'];
    CityZoneNormalized(SampleTables(base0, perKg0), "Москва", "", ['\U{A0}']);
    MoscowZone(base0, perKg0);
  }

  /** The padded spelling of the test reaches the same zone. */
  lemma BalashikhaZone(base0: real, perKg0: real)
    ensures CityZone(SampleTables(base0, perKg0), "  " + "Балашиха" + "  ") == Some(2)
  {
    var t := SampleTables(base0, perKg0);
    assert AllSpace("  ") by {
      assert "  "[0] == ' ' && "  "[1] == ' ';
    }
    CityZoneNormalized(t, "Балашиха", "  ", "  ");
    NormalizeBalashikha();
    assert CityZone(t, "Балашиха") == Some(2);
  }

  lemma NormalizeMoscow()
    ensures Normalize("Москва") == "москва"
  {
    TrimOfTrimmed("Москва");
    LowerMoscow();
  }

  lemma LowerMoscow()
    ensures Lower("Москва") == "москва"
  {
    var l := Lower("Москва");
    assert |l| == 6;
    assert l[0] == 'м' && l[1] == 'о' && l[2] == 'с';
    assert l[3] == 'к' && l[4] == 'в' && l[5] == 'а';
  }

  lemma LowerBalashikha()
    ensures Lower("Балашиха") == "балашиха"
  {
    var l := Lower("Балашиха");
    assert |l| == 8;
    assert l[0] == 'б' && l[1] == 'а' && l[2] == 'л' && l[3] == 'а';
    assert l[4] == 'ш' && l[5] == 'и' && l[6] == 'х' && l[7] == 'а';
  }

  lemma NormalizeBalashikha()
    ensures Normalize("Балашиха") == "балашиха"
  {
    TrimOfTrimmed("Балашиха");
    LowerBalashikha();
  }

  lemma UnknownCity()
    ensures Normalize("Неизвестный город") !in SampleTables(0.0, 0.0).zones
  {
    var s := "Неизвестный город";
    TrimOfTrimmed(s);
    var l := Lower(s);
    assert l[0] == 'н' && l[1] == 'е' && l[2] == 'и';
  }

  /** москва to москва by courier, 2.5 kg: the same-city base plus 1.5 kg of surcharge. */
  lemma SameCityScenario(base0: real, perKg0: real)
    ensures Estimate(SampleTables(base0, perKg0), "москва", "москва", 2.5, "Курьером")
      == Some(Round2(base0 + 1.5 * perKg0))
  {
    var t := SampleTables(base0, perKg0);
    SameCityQuote(t, "москва", "москва", 2.5, Courier, "Курьером");
    var p := t.prices[(SameCityClass, Courier)];
    assert p == Price(base0, perKg0);
    assert ShippingCost(t, SameCityClass, Courier, 2.5) == Some(Round2(RawCost(p, 2.5)));
    assert RawCost(p, 2.5) == base0 + 1.5 * perKg0;
  }
}

/**
 * The discount policy as data: lookup tables, a tier found by binary search, and a fold over
 * rule tables keyed by evaluated conditions. Proved equal to the branching versions it replaced.
 */
module Discount {
  datatype Context = Context(
    rentalCount: int, isVip: bool, vehicleType: string, stationZones: seq<string>, hasCoupon: bool,
    isWeekend: bool, isHoliday: bool, isCorporate: bool, isNight: bool, tripHours: real,
    isBirthday: bool, returnedCharged: bool)

  // ---------- The tables ----------

  const ZONE_DISCOUNTS: map<string, int> := map["center" := 1, "suburb" := -1]

  /** (more than 10 rentals, premium vehicle) */
  const VIP_DISCOUNT: map<(bool, bool), int> :=
    map[(true, true) := 5, (true, false) := 10, (false, true) := 2, (false, false) := 5]

  const REGULAR_TIER_BOUNDS: seq<int> := [5, 20]

  /** (rental-count tier, has coupon) */
  const REGULAR_DISCOUNT: map<(int, bool), int> :=
    map[(0, false) := 0, (0, true) := 0, (1, false) := 1, (1, true) := 4, (2, false) := 3, (2, true) := 3]

  const HOLIDAY_DISCOUNT: map<bool, int> := map[true := 2, false := 1]

  type Amount = Context -> int

  /** The conditions a rule evaluates, and the amounts of the keys that earn something. */
  datatype Rule = Rule(key: Context -> seq<bool>, table: map<seq<bool>, Amount>)

  const SURCHARGE_RULES: seq<Rule> := [
    Rule((c: Context) => [c.isWeekend],
         map[[true] := (c: Context) => WeekendZoneDiscount(c.stationZones)]),
    Rule((c: Context) => [c.isHoliday],
         map[[true] := (c: Context) => HolidayDiscount(c.hasCoupon)]),
    Rule((c: Context) => [c.isCorporate, c.rentalCount > 5, c.vehicleType != "premium"],
         map[[true, true, true] := (c: Context) => 3]),
    Rule((c: Context) => [c.isNight, c.tripHours >= 3.0, c.hasCoupon],
         map[[true, true, false] := (c: Context) => 4]),
    Rule((c: Context) => [c.isBirthday, c.isVip, c.rentalCount > 3],
         map[[true, true, true] := (c: Context) => 6, [true, true, false] := (c: Context) => 6, [true, false, true] := (c: Context) => 6]),
    Rule((c: Context) => [c.returnedCharged, c.vehicleType == "electric", c.tripHours > 1.0],
         map[[true, true, true] := (c: Context) => 2])
  ]

  // ---------- The engine ----------

  ghost predicate Sorted(bounds: seq<int>) {
    forall i, j :: 0 <= i < j < |bounds| ==> bounds[i] <= bounds[j]
  }

  /** bisect_left between lo and hi: the first index whose bound is not below x. */
  function BisectLeft(bounds: seq<int>, x: int, lo: nat, hi: nat): (tier: nat)
    requires Sorted(bounds) && lo <= hi <= |bounds|
    ensures lo <= tier <= hi
    ensures forall i :: lo <= i < tier ==> bounds[i] < x
    ensures forall i :: tier <= i < hi ==> x <= bounds[i]
    decreases hi - lo
  {
    if lo == hi then lo
    else
      var mid := (lo + hi) / 2;
      if bounds[mid] < x then BisectLeft(bounds, x, mid + 1, hi) else BisectLeft(bounds, x, lo, mid)
  }

  function VipDiscount(rentalCount: int, vehicleType: string): int {
    VIP_DISCOUNT[(rentalCount > 10, vehicleType == "premium")]
  }

  function RegularDiscount(rentalCount: int, hasCoupon: bool): int {
    var tier := BisectLeft(REGULAR_TIER_BOUNDS, rentalCount, 0, 2);
    assert (tier, hasCoupon) in REGULAR_DISCOUNT;
    REGULAR_DISCOUNT[(tier, hasCoupon)]
  }

  function WeekendZoneDiscount(zones: seq<string>): int {
    if zones == [] then 0
    else
      var zone := zones[|zones| - 1];
      WeekendZoneDiscount(zones[..|zones| - 1]) + if zone in ZONE_DISCOUNTS then ZONE_DISCOUNTS[zone] else 0
  }

  function HolidayDiscount(hasCoupon: bool): int {
    HOLIDAY_DISCOUNT[hasCoupon]
  }

  function Earned(rule: Rule, c: Context): int {
    if rule.key(c) in rule.table then rule.table[rule.key(c)](c) else 0
  }

  function SumRules(rules: seq<Rule>, c: Context): int {
    if rules == [] then 0 else Earned(rules[0], c) + SumRules(rules[1..], c)
  }

  function CalculateDiscount(c: Context): int {
    (if c.isVip then VipDiscount(c.rentalCount, c.vehicleType) else RegularDiscount(c.rentalCount, c.hasCoupon))
    + SumRules(SURCHARGE_RULES, c)
  }

  // ---------- The branching versions ----------

  /** The original nested if/else of the seven-argument function, with its loop over the zones. */
  function OriginalBase(c: Context): int {
    if c.isVip then
      if c.rentalCount > 10 then if c.vehicleType == "premium" then 5 else 10
      else if c.vehicleType == "premium" then 2 else 5
    else if c.rentalCount > 20 then 3
    else if c.rentalCount > 5 then if c.hasCoupon then 4 else 1
    else 0
  }

  function OriginalZones(zones: seq<string>, discount: int): int {
    if zones == [] then discount
    else if zones[0] == "center" then OriginalZones(zones[1..], discount + 1)
    else if zones[0] == "suburb" then OriginalZones(zones[1..], discount - 1)
    else OriginalZones(zones[1..], discount)
  }

  function Original(c: Context): int {
    var base := OriginalBase(c);
    var weekend := if c.isWeekend then OriginalZones(c.stationZones, base) else base;
    if c.isHoliday then weekend + if c.hasCoupon then 2 else 1 else weekend
  }

  /** The later version with the five keyword rules. */
  function Branching(c: Context): int {
    Original(c)
    + (if c.isCorporate && c.rentalCount > 5 && c.vehicleType != "premium" then 3 else 0)
    + (if c.isNight && c.tripHours >= 3.0 && !c.hasCoupon then 4 else 0)
    + (if c.isBirthday && (c.isVip || c.rentalCount > 3) then 6 else 0)
    + (if c.returnedCharged && c.vehicleType == "electric" && c.tripHours > 1.0 then 2 else 0)
  }

  // ---------- Equality ----------

  /** The zone table adds the centre stations and subtracts the suburban ones, in whatever order. */
  lemma {:induction false} ZonesAreCounted(zones: seq<string>)
    ensures WeekendZoneDiscount(zones) == multiset(zones)["center"] as int - multiset(zones)["suburb"] as int
  {
    if zones != [] {
      ZonesAreCounted(zones[..|zones| - 1]);
      assert zones == zones[..|zones| - 1] + [zones[|zones| - 1]];
    }
  }

  lemma {:induction false} OriginalZonesCount(zones: seq<string>, discount: int)
    ensures OriginalZones(zones, discount) == discount + multiset(zones)["center"] as int - multiset(zones)["suburb"] as int
    decreases zones
  {
    if zones != [] {
      assert zones == [zones[0]] + zones[1..];
      assert "center" != "suburb" by {
        assert "center"[0] != "suburb"[0];
      }
      OriginalZonesCount(zones[1..],
        if zones[0] == "center" then discount + 1 else if zones[0] == "suburb" then discount - 1 else discount);
    }
  }

  lemma OneCondition(a: bool, x: bool)
    ensures [a] == [x] <==> a == x
  {
    assert [a][0] == a && [x][0] == x;
  }

  lemma ThreeConditions(a: bool, b: bool, d: bool, x: bool, y: bool, z: bool)
    ensures [a, b, d] == [x, y, z] <==> a == x && b == y && d == z
  {
    assert [a, b, d][0] == a && [a, b, d][1] == b && [a, b, d][2] == d;
    assert [x, y, z][0] == x && [x, y, z][1] == y && [x, y, z][2] == z;
  }

  lemma CalendarRules(c: Context)
    ensures Earned(SURCHARGE_RULES[0], c) == if c.isWeekend then WeekendZoneDiscount(c.stationZones) else 0
    ensures Earned(SURCHARGE_RULES[1], c) == if c.isHoliday then HolidayDiscount(c.hasCoupon) else 0
  {
    OneCondition(c.isWeekend, true);
    OneCondition(c.isHoliday, true);
  }

  lemma CorporateAndNightRules(c: Context)
    ensures Earned(SURCHARGE_RULES[2], c) == if c.isCorporate && c.rentalCount > 5 && c.vehicleType != "premium" then 3 else 0
    ensures Earned(SURCHARGE_RULES[3], c) == if c.isNight && c.tripHours >= 3.0 && !c.hasCoupon then 4 else 0
  {
    ThreeConditions(c.isCorporate, c.rentalCount > 5, c.vehicleType != "premium", true, true, true);
    ThreeConditions(c.isNight, c.tripHours >= 3.0, c.hasCoupon, true, true, false);
  }

  lemma BirthdayRule(c: Context)
    ensures Earned(SURCHARGE_RULES[4], c) == if c.isBirthday && (c.isVip || c.rentalCount > 3) then 6 else 0
  {
    ThreeConditions(c.isBirthday, c.isVip, c.rentalCount > 3, true, true, true);
    ThreeConditions(c.isBirthday, c.isVip, c.rentalCount > 3, true, true, false);
    ThreeConditions(c.isBirthday, c.isVip, c.rentalCount > 3, true, false, true);
  }

  lemma ChargedRule(c: Context)
    ensures Earned(SURCHARGE_RULES[5], c) == if c.returnedCharged && c.vehicleType == "electric" && c.tripHours > 1.0 then 2 else 0
  {
    ThreeConditions(c.returnedCharged, c.vehicleType == "electric", c.tripHours > 1.0, true, true, true);
  }

  lemma SixRules(rules: seq<Rule>, c: Context)
    requires |rules| == 6
    ensures SumRules(rules, c) == Earned(rules[0], c) + Earned(rules[1], c) + Earned(rules[2], c)
                                  + Earned(rules[3], c) + Earned(rules[4], c) + Earned(rules[5], c)
  {
    assert rules[1..][1..] == rules[2..] && rules[2..][1..] == rules[3..] && rules[3..][1..] == rules[4..];
    assert rules[4..][1..] == rules[5..] && rules[5..][1..] == [];
    assert SumRules(rules[5..], c) == Earned(rules[5], c);
    assert SumRules(rules[4..], c) == Earned(rules[4], c) + SumRules(rules[5..], c);
    assert SumRules(rules[3..], c) == Earned(rules[3], c) + SumRules(rules[4..], c);
    assert SumRules(rules[2..], c) == Earned(rules[2], c) + SumRules(rules[3..], c);
    assert SumRules(rules[1..], c) == Earned(rules[1], c) + SumRules(rules[2..], c);
  }

  lemma BaseTable(c: Context)
    ensures (if c.isVip then VipDiscount(c.rentalCount, c.vehicleType) else RegularDiscount(c.rentalCount, c.hasCoupon)) == OriginalBase(c)
  {
    if !c.isVip {
      var tier := BisectLeft(REGULAR_TIER_BOUNDS, c.rentalCount, 0, 2);
      assert REGULAR_TIER_BOUNDS[0] == 5 && REGULAR_TIER_BOUNDS[1] == 20;
      assert tier == if c.rentalCount <= 5 then 0 else if c.rentalCount <= 20 then 1 else 2;
    }
  }

  lemma TableRules(c: Context)
    ensures SumRules(SURCHARGE_RULES, c)
            == (if c.isWeekend then WeekendZoneDiscount(c.stationZones) else 0)
               + (if c.isHoliday then HolidayDiscount(c.hasCoupon) else 0)
               + (if c.isCorporate && c.rentalCount > 5 && c.vehicleType != "premium" then 3 else 0)
               + (if c.isNight && c.tripHours >= 3.0 && !c.hasCoupon then 4 else 0)
               + (if c.isBirthday && (c.isVip || c.rentalCount > 3) then 6 else 0)
               + (if c.returnedCharged && c.vehicleType == "electric" && c.tripHours > 1.0 then 2 else 0)
  {
    SixRules(SURCHARGE_RULES, c);
    CalendarRules(c);
    CorporateAndNightRules(c);
    BirthdayRule(c);
    ChargedRule(c);
  }

  /** For every rental count, zone list and trip length the tables give what the branches gave. */
  lemma TablesEqualBranches(c: Context)
    ensures CalculateDiscount(c) == Branching(c)
  {
    BaseTable(c);
    TableRules(c);
    ZonesAreCounted(c.stationZones);
    OriginalZonesCount(c.stationZones, OriginalBase(c));
  }

  /** The call with seven arguments, the others at their defaults. */
  function SevenArguments(
    rentalCount: int, isVip: bool, vehicleType: string, stationZones: seq<string>, hasCoupon: bool, isWeekend: bool, isHoliday: bool)
    : int
  {
    CalculateDiscount(
      Context(rentalCount, isVip, vehicleType, stationZones, hasCoupon, isWeekend, isHoliday, false, false, 0.0, false, false))
  }

  lemma SevenArgumentsEqualOriginal(c: Context)
    ensures SevenArguments(c.rentalCount, c.isVip, c.vehicleType, c.stationZones, c.hasCoupon, c.isWeekend, c.isHoliday) == Original(c)
  {
    var d := c.(isCorporate := false, isNight := false, tripHours := 0.0, isBirthday := false, returnedCharged := false);
    TablesEqualBranches(d);
  }
}

/**
 The personal carbon-footprint calculator page: the form record, the
 blank-to-zero input handling, the weighted sum over the form in pounds of CO2
 converted to metric tons, the three-band verdict under the total, the capped
 progress-bar widths and the share badges.

 All arithmetic is over `real`. The page computes in IEEE doubles; rounding,
 `NaN` and `Infinity` are not modelled, so the two divisions by a form field
 (car efficiency and household size) require a non-zero divisor here, while
 the page divides unguarded.
 */
module Calculator {

  /** Pounds in one metric ton, the divisor of every reported figure. */
  const PoundsPerMetricTon: real := 2204.62

  /** The form state of the page; every numeric input is a real. */
  datatype FootprintForm = FootprintForm(
    // Transportation
    carMileage: real,           // miles per week
    carEfficiency: real,        // miles per gallon
    flightShortHaul: real,      // flights per year
    flightMediumHaul: real,     // flights per year
    flightLongHaul: real,       // flights per year
    publicTransport: real,      // miles per week
    // Home energy
    electricityUsage: real,     // kWh per month
    naturalGasUsage: real,      // therms per month
    renewablePercentage: real,  // percent of electricity from renewable sources
    householdSize: real,        // people
    // Food and consumption
    dietType: string,
    localFoodPercentage: real,  // percent of food locally sourced
    newClothingItems: real,     // items per year
    newElectronicsItems: real,  // items per year
    // Waste
    recyclingPercentage: real,
    compostingPercentage: real
  )

  /** The form as the page first shows it. */
  const DefaultForm: FootprintForm := FootprintForm(
    0.0, 25.0, 0.0, 0.0, 0.0, 0.0,
    0.0, 0.0, 0.0, 1.0,
    "omnivore", 0.0, 0.0, 0.0,
    0.0, 0.0)

  /** The numeric inputs, named as the page's `name` attributes are. */
  datatype NumericField =
    | CarMileage | CarEfficiency | FlightShortHaul | FlightMediumHaul | FlightLongHaul | PublicTransport
    | ElectricityUsage | NaturalGasUsage | RenewablePercentage | HouseholdSize
    | LocalFoodPercentage | NewClothingItems | NewElectronicsItems
    | RecyclingPercentage | CompostingPercentage

  function Get(f: FootprintForm, field: NumericField): real {
    match field
    case CarMileage => f.carMileage
    case CarEfficiency => f.carEfficiency
    case FlightShortHaul => f.flightShortHaul
    case FlightMediumHaul => f.flightMediumHaul
    case FlightLongHaul => f.flightLongHaul
    case PublicTransport => f.publicTransport
    case ElectricityUsage => f.electricityUsage
    case NaturalGasUsage => f.naturalGasUsage
    case RenewablePercentage => f.renewablePercentage
    case HouseholdSize => f.householdSize
    case LocalFoodPercentage => f.localFoodPercentage
    case NewClothingItems => f.newClothingItems
    case NewElectronicsItems => f.newElectronicsItems
    case RecyclingPercentage => f.recyclingPercentage
    case CompostingPercentage => f.compostingPercentage
  }

  /** `{...formData, [name]: v}` for a numeric field. */
  function Set(f: FootprintForm, field: NumericField, v: real): (r: FootprintForm)
    ensures Get(r, field) == v
    ensures forall g :: g != field ==> Get(r, g) == Get(f, g)
    ensures r.dietType == f.dietType
  {
    match field
    case CarMileage => f.(carMileage := v)
    case CarEfficiency => f.(carEfficiency := v)
    case FlightShortHaul => f.(flightShortHaul := v)
    case FlightMediumHaul => f.(flightMediumHaul := v)
    case FlightLongHaul => f.(flightLongHaul := v)
    case PublicTransport => f.(publicTransport := v)
    case ElectricityUsage => f.(electricityUsage := v)
    case NaturalGasUsage => f.(naturalGasUsage := v)
    case RenewablePercentage => f.(renewablePercentage := v)
    case HouseholdSize => f.(householdSize := v)
    case LocalFoodPercentage => f.(localFoodPercentage := v)
    case NewClothingItems => f.(newClothingItems := v)
    case NewElectronicsItems => f.(newElectronicsItems := v)
    case RecyclingPercentage => f.(recyclingPercentage := v)
    case CompostingPercentage => f.(compostingPercentage := v)
  }

  /**
   A number input changed: a blank value stores 0, any other value stores what
   `parse` (the page's `parseFloat`) makes of it. Nothing else changes.
   */
  function HandleInputChange(f: FootprintForm, name: NumericField, value: string, parse: string -> real)
    : (r: FootprintForm)
    ensures value == "" ==> Get(r, name) == 0.0
    ensures value != "" ==> Get(r, name) == parse(value)
    ensures forall g :: g != name ==> Get(r, g) == Get(f, g)
    ensures r.dietType == f.dietType
  {
    Set(f, name, if value == "" then 0.0 else parse(value))
  }

  /** The diet select changed: the raw option string is stored as is. */
  function HandleSelectChange(f: FootprintForm, value: string): (r: FootprintForm)
    ensures r.dietType == value
    ensures forall g :: Get(r, g) == Get(f, g)
  {
    f.(dietType := value)
  }

  // ---------------------------------------------------------------------------
  // The estimate, in pounds of CO2 per year

  /** Both divisions of the estimate have a non-zero divisor. */
  predicate Computable(f: FootprintForm) {
    f.carEfficiency != 0.0 && f.householdSize != 0.0
  }

  function CarLbs(f: FootprintForm): real
    requires f.carEfficiency != 0.0
  {
    (f.carMileage * 52.0) / f.carEfficiency * 19.6
  }

  function TransportationLbs(f: FootprintForm): real
    requires f.carEfficiency != 0.0
  {
    CarLbs(f)
    + f.flightShortHaul * 500.0
    + f.flightMediumHaul * 1200.0
    + f.flightLongHaul * 2500.0
    + f.publicTransport * 52.0 * 0.25
  }

  function ElectricityLbs(f: FootprintForm): real {
    f.electricityUsage * 12.0 * 0.92 * (1.0 - f.renewablePercentage / 100.0)
  }

  function NaturalGasLbs(f: FootprintForm): real {
    f.naturalGasUsage * 12.0 * 11.7
  }

  /** Electricity and gas of the household, per person. */
  function HomeEnergyLbs(f: FootprintForm): real
    requires f.householdSize != 0.0
  {
    (ElectricityLbs(f) + NaturalGasLbs(f)) / f.householdSize
  }

  /** The diets the select offers. */
  predicate KnownDiet(diet: string) {
    diet == "omnivore" || diet == "pescatarian" || diet == "vegetarian" || diet == "vegan"
  }

  /** Tons of CO2 per year of a diet; anything unrecognised counts as omnivore. */
  function DietFactor(diet: string): (r: real)
    ensures 1.5 <= r <= 3.3
    ensures !KnownDiet(diet) ==> r == 3.3
  {
    match diet
    case "omnivore" => 3.3
    case "pescatarian" => 2.5
    case "vegetarian" => 1.7
    case "vegan" => 1.5
    case _ => 3.3
  }

  /** The diet in pounds, reduced by half of the locally sourced share. */
  function FoodLbs(f: FootprintForm): real {
    DietFactor(f.dietType) * 2000.0 * (1.0 - f.localFoodPercentage / 200.0)
  }

  function ConsumptionLbs(f: FootprintForm): real {
    f.newClothingItems * 50.0 + f.newElectronicsItems * 300.0
  }

  const BaseWasteLbs: real := 700.0

  function WasteLbs(f: FootprintForm): real {
    var recyclingReduction := BaseWasteLbs * (f.recyclingPercentage / 100.0) * 0.5;
    var compostingReduction := BaseWasteLbs * (f.compostingPercentage / 100.0) * 0.3;
    BaseWasteLbs - recyclingReduction - compostingReduction
  }

  function TotalLbs(f: FootprintForm): real
    requires Computable(f)
  {
    TransportationLbs(f) + HomeEnergyLbs(f) + FoodLbs(f) + ConsumptionLbs(f) + WasteLbs(f)
  }

  // ---------------------------------------------------------------------------
  // The results the page shows, in metric tons

  datatype Results = Results(
    transportationEmissions: real,
    homeEnergyEmissions: real,
    foodEmissions: real,
    consumptionEmissions: real,
    wasteEmissions: real,
    totalEmissions: real,
    showResults: bool
  )

  const InitialResults: Results := Results(0.0, 0.0, 0.0, 0.0, 0.0, 0.0, false)

  /**
   The calculate button: every figure is its pound value over
   `PoundsPerMetricTon`, the total is the sum of the five categories, and the
   results become visible.
   */
  function CalculateFootprint(f: FootprintForm): (r: Results)
    requires Computable(f)
    ensures r.showResults
    ensures r.totalEmissions
         == r.transportationEmissions + r.homeEnergyEmissions + r.foodEmissions
          + r.consumptionEmissions + r.wasteEmissions
    ensures r.transportationEmissions * PoundsPerMetricTon == TransportationLbs(f)
    ensures r.homeEnergyEmissions * PoundsPerMetricTon == HomeEnergyLbs(f)
    ensures r.foodEmissions * PoundsPerMetricTon == FoodLbs(f)
    ensures r.consumptionEmissions * PoundsPerMetricTon == ConsumptionLbs(f)
    ensures r.wasteEmissions * PoundsPerMetricTon == WasteLbs(f)
    ensures r.totalEmissions * PoundsPerMetricTon == TotalLbs(f)
  {
    var total := TotalLbs(f);
    Results(
      TransportationLbs(f) / PoundsPerMetricTon,
      HomeEnergyLbs(f) / PoundsPerMetricTon,
      FoodLbs(f) / PoundsPerMetricTon,
      ConsumptionLbs(f) / PoundsPerMetricTon,
      WasteLbs(f) / PoundsPerMetricTon,
      total / PoundsPerMetricTon,
      true)
  }

  /** The panel is hidden until the first calculation and shown after any. */
  lemma ResultsShowOnlyAfterCalculating(f: FootprintForm)
    requires Computable(f)
    ensures !InitialResults.showResults
    ensures CalculateFootprint(f).showResults
  {
  }

  // ---------------------------------------------------------------------------
  // Properties of the estimate

  /** For a fixed local share below 200%, the diets are strictly ordered. */
  lemma DietOrdering(f: FootprintForm)
    requires f.localFoodPercentage < 200.0
    ensures FoodLbs(f.(dietType := "vegan")) < FoodLbs(f.(dietType := "vegetarian"))
    ensures FoodLbs(f.(dietType := "vegetarian")) < FoodLbs(f.(dietType := "pescatarian"))
    ensures FoodLbs(f.(dietType := "pescatarian")) < FoodLbs(f.(dietType := "omnivore"))
    ensures !KnownDiet(f.dietType) ==> FoodLbs(f) == FoodLbs(f.(dietType := "omnivore"))
  {
    var k := 2000.0 * (1.0 - f.localFoodPercentage / 200.0);
    assert k > 0.0;
    assert FoodLbs(f.(dietType := "vegan")) == 1.5 * k;
    assert FoodLbs(f.(dietType := "vegetarian")) == 1.7 * k;
    assert FoodLbs(f.(dietType := "pescatarian")) == 2.5 * k;
    assert FoodLbs(f.(dietType := "omnivore")) == 3.3 * k;
  }

  /** A fully local diet weighs exactly half the same diet with no local share. */
  lemma FullyLocalFoodHalves(f: FootprintForm)
    requires f.localFoodPercentage == 100.0
    ensures 2.0 * FoodLbs(f) == FoodLbs(f.(localFoodPercentage := 0.0))
    ensures FoodLbs(f.(localFoodPercentage := 0.0)) == DietFactor(f.dietType) * 2000.0
  {
  }

  /** All-renewable electricity leaves only the gas term of home energy. */
  lemma FullRenewableZeroesElectricity(f: FootprintForm)
    requires f.renewablePercentage == 100.0
    requires f.householdSize != 0.0
    ensures ElectricityLbs(f) == 0.0
    ensures HomeEnergyLbs(f) == NaturalGasLbs(f) / f.householdSize
  {
  }

  /** With both shares in [0, 100], waste lies in [140, 700]; it is 700 exactly when both are 0. */
  lemma WasteBounds(f: FootprintForm)
    requires 0.0 <= f.recyclingPercentage <= 100.0
    requires 0.0 <= f.compostingPercentage <= 100.0
    ensures 140.0 <= WasteLbs(f) <= BaseWasteLbs
    ensures WasteLbs(f) == BaseWasteLbs <==> f.recyclingPercentage == 0.0 && f.compostingPercentage == 0.0
  {
  }

  /** The form as the page first shows it comes to 6600 lb of food plus 700 lb of waste. */
  lemma DefaultEstimate()
    ensures Computable(DefaultForm)
    ensures CalculateFootprint(DefaultForm).totalEmissions * PoundsPerMetricTon == 7300.0
    ensures CalculateFootprint(DefaultForm).foodEmissions * PoundsPerMetricTon == 6600.0
  {
    assert DietFactor("omnivore") == 3.3;
  }

  // ---------------------------------------------------------------------------
  // Monotonicity

  /** Inputs a person could actually enter: nothing negative, shares in [0, 100], positive divisors. */
  predicate Plausible(f: FootprintForm) {
    && f.carMileage >= 0.0 && f.carEfficiency > 0.0
    && f.flightShortHaul >= 0.0 && f.flightMediumHaul >= 0.0 && f.flightLongHaul >= 0.0
    && f.publicTransport >= 0.0
    && f.electricityUsage >= 0.0 && f.naturalGasUsage >= 0.0
    && 0.0 <= f.renewablePercentage <= 100.0
    && f.householdSize > 0.0
    && 0.0 <= f.localFoodPercentage <= 100.0
    && f.newClothingItems >= 0.0 && f.newElectronicsItems >= 0.0
    && 0.0 <= f.recyclingPercentage <= 100.0
    && 0.0 <= f.compostingPercentage <= 100.0
  }

  /**
   `g` describes a lifestyle at least as intensive as `f`: the same car, household
   and diet, no less of any emitting activity and no more of any reducing share.
   */
  predicate Intensifies(f: FootprintForm, g: FootprintForm) {
    && g.carEfficiency == f.carEfficiency
    && g.householdSize == f.householdSize
    && g.dietType == f.dietType
    && f.carMileage <= g.carMileage
    && f.flightShortHaul <= g.flightShortHaul
    && f.flightMediumHaul <= g.flightMediumHaul
    && f.flightLongHaul <= g.flightLongHaul
    && f.publicTransport <= g.publicTransport
    && f.electricityUsage <= g.electricityUsage
    && f.naturalGasUsage <= g.naturalGasUsage
    && g.renewablePercentage <= f.renewablePercentage
    && g.localFoodPercentage <= f.localFoodPercentage
    && f.newClothingItems <= g.newClothingItems
    && f.newElectronicsItems <= g.newElectronicsItems
    && g.recyclingPercentage <= f.recyclingPercentage
    && g.compostingPercentage <= f.compostingPercentage
  }

  lemma MulMonotone(a: real, b: real, c: real, d: real)
    requires 0.0 <= a <= b
    requires 0.0 <= c <= d
    ensures a * c <= b * d
  {
    assert a * c <= b * c;
  }

  lemma TransportationMonotone(f: FootprintForm, g: FootprintForm)
    requires Plausible(f) && Plausible(g) && Intensifies(f, g)
    ensures TransportationLbs(f) <= TransportationLbs(g)
  {
    var e := f.carEfficiency;
    assert f.carMileage * 52.0 / e <= g.carMileage * 52.0 / e;
  }

  lemma HomeEnergyMonotone(f: FootprintForm, g: FootprintForm)
    requires Plausible(f) && Plausible(g) && Intensifies(f, g)
    ensures ElectricityLbs(f) <= ElectricityLbs(g)
    ensures HomeEnergyLbs(f) <= HomeEnergyLbs(g)
  {
    MulMonotone(f.electricityUsage * 12.0 * 0.92, g.electricityUsage * 12.0 * 0.92,
                1.0 - f.renewablePercentage / 100.0, 1.0 - g.renewablePercentage / 100.0);
    assert ElectricityLbs(f) <= ElectricityLbs(g);
    assert NaturalGasLbs(f) <= NaturalGasLbs(g);
    var h := f.householdSize;
    assert (ElectricityLbs(f) + NaturalGasLbs(f)) / h <= (ElectricityLbs(g) + NaturalGasLbs(g)) / h;
  }

  lemma FoodMonotone(f: FootprintForm, g: FootprintForm)
    requires Plausible(f) && Plausible(g) && Intensifies(f, g)
    ensures FoodLbs(f) <= FoodLbs(g)
  {
    var k := DietFactor(f.dietType) * 2000.0;
    assert k > 0.0;
    assert 1.0 - f.localFoodPercentage / 200.0 <= 1.0 - g.localFoodPercentage / 200.0;
    MulMonotone(k, k, 1.0 - f.localFoodPercentage / 200.0, 1.0 - g.localFoodPercentage / 200.0);
  }

  /** A more intensive lifestyle never yields a smaller category or total. */
  lemma FootprintMonotone(f: FootprintForm, g: FootprintForm)
    requires Plausible(f) && Plausible(g) && Intensifies(f, g)
    ensures var rf, rg := CalculateFootprint(f), CalculateFootprint(g);
      && rf.transportationEmissions <= rg.transportationEmissions
      && rf.homeEnergyEmissions <= rg.homeEnergyEmissions
      && rf.foodEmissions <= rg.foodEmissions
      && rf.consumptionEmissions <= rg.consumptionEmissions
      && rf.wasteEmissions <= rg.wasteEmissions
      && rf.totalEmissions <= rg.totalEmissions
  {
    TransportationMonotone(f, g);
    HomeEnergyMonotone(f, g);
    FoodMonotone(f, g);
  }

  /** The inputs whose weight in the estimate is positive. */
  predicate Emitting(field: NumericField) {
    field in {CarMileage, FlightShortHaul, FlightMediumHaul, FlightLongHaul, PublicTransport,
              ElectricityUsage, NaturalGasUsage, NewClothingItems, NewElectronicsItems}
  }

  /**
   Raising one emitting input strictly raises its category and the total;
   electricity counts only while some of it is not renewable.
   */
  lemma RaisingEmittingInputRaisesTotal(f: FootprintForm, field: NumericField, v: real)
    requires Plausible(f) && Emitting(field) && v > Get(f, field)
    requires field == ElectricityUsage ==> f.renewablePercentage < 100.0
    ensures Computable(Set(f, field, v))
    ensures field in {CarMileage, FlightShortHaul, FlightMediumHaul, FlightLongHaul, PublicTransport} ==>
              TransportationLbs(f) < TransportationLbs(Set(f, field, v))
    ensures field in {ElectricityUsage, NaturalGasUsage} ==> HomeEnergyLbs(f) < HomeEnergyLbs(Set(f, field, v))
    ensures field in {NewClothingItems, NewElectronicsItems} ==> ConsumptionLbs(f) < ConsumptionLbs(Set(f, field, v))
    ensures TotalLbs(f) < TotalLbs(Set(f, field, v))
    ensures CalculateFootprint(f).totalEmissions < CalculateFootprint(Set(f, field, v)).totalEmissions
  {
    if field in {CarMileage, FlightShortHaul, FlightMediumHaul, FlightLongHaul, PublicTransport} {
      RaisingTravel(f, field, v);
    } else if field in {ElectricityUsage, NaturalGasUsage} {
      RaisingHomeEnergy(f, field, v);
    } else {
      RaisingPurchases(f, field, v);
    }
    var g := Set(f, field, v);
    assert CalculateFootprint(f).totalEmissions * PoundsPerMetricTon
         < CalculateFootprint(g).totalEmissions * PoundsPerMetricTon;
  }

  lemma RaisingTravel(f: FootprintForm, field: NumericField, v: real)
    requires Plausible(f) && v > Get(f, field)
    requires field in {CarMileage, FlightShortHaul, FlightMediumHaul, FlightLongHaul, PublicTransport}
    ensures Computable(Set(f, field, v))
    ensures TransportationLbs(f) < TransportationLbs(Set(f, field, v))
    ensures TotalLbs(f) < TotalLbs(Set(f, field, v))
  {
    var g := Set(f, field, v);
    assert FoodLbs(g) == FoodLbs(f);
    assert WasteLbs(g) == WasteLbs(f);
    assert HomeEnergyLbs(g) == HomeEnergyLbs(f);
    assert ConsumptionLbs(g) == ConsumptionLbs(f);
    if field == CarMileage {
      var e := f.carEfficiency;
      assert f.carMileage * 52.0 / e < v * 52.0 / e;
      assert CarLbs(f) < CarLbs(g);
    } else {
      assert CarLbs(f) == CarLbs(g);
    }
    assert TransportationLbs(f) < TransportationLbs(g);
  }

  lemma RaisingHomeEnergy(f: FootprintForm, field: NumericField, v: real)
    requires Plausible(f) && v > Get(f, field)
    requires field == ElectricityUsage || field == NaturalGasUsage
    requires field == ElectricityUsage ==> f.renewablePercentage < 100.0
    ensures Computable(Set(f, field, v))
    ensures HomeEnergyLbs(f) < HomeEnergyLbs(Set(f, field, v))
    ensures TotalLbs(f) < TotalLbs(Set(f, field, v))
  {
    var g := Set(f, field, v);
    var h := f.householdSize;
    assert FoodLbs(g) == FoodLbs(f);
    assert WasteLbs(g) == WasteLbs(f);
    assert TransportationLbs(g) == TransportationLbs(f);
    assert ConsumptionLbs(g) == ConsumptionLbs(f);
    if field == ElectricityUsage {
      assert g == f.(electricityUsage := v);
      var k := 12.0 * 0.92 * (1.0 - f.renewablePercentage / 100.0);
      assert k > 0.0;
      assert ElectricityLbs(f) == f.electricityUsage * k;
      assert ElectricityLbs(g) == v * k;
      assert ElectricityLbs(g) - ElectricityLbs(f) == (v - f.electricityUsage) * k;
      assert (v - f.electricityUsage) * k > 0.0;
      assert NaturalGasLbs(g) == NaturalGasLbs(f);
    } else {
      assert g == f.(naturalGasUsage := v);
      assert ElectricityLbs(g) == ElectricityLbs(f);
      assert NaturalGasLbs(g) - NaturalGasLbs(f) == (v - f.naturalGasUsage) * (12.0 * 11.7);
    }
    assert ElectricityLbs(f) + NaturalGasLbs(f) < ElectricityLbs(g) + NaturalGasLbs(g);
    assert h > 0.0;
    StrictDivide(ElectricityLbs(f) + NaturalGasLbs(f), ElectricityLbs(g) + NaturalGasLbs(g), h);
    assert HomeEnergyLbs(f) < HomeEnergyLbs(g);
  }

  lemma RaisingPurchases(f: FootprintForm, field: NumericField, v: real)
    requires Plausible(f) && v > Get(f, field)
    requires field == NewClothingItems || field == NewElectronicsItems
    ensures Computable(Set(f, field, v))
    ensures ConsumptionLbs(f) < ConsumptionLbs(Set(f, field, v))
    ensures TotalLbs(f) < TotalLbs(Set(f, field, v))
  {
    var g := Set(f, field, v);
    assert FoodLbs(g) == FoodLbs(f);
    assert WasteLbs(g) == WasteLbs(f);
    assert TransportationLbs(g) == TransportationLbs(f);
    assert HomeEnergyLbs(g) == HomeEnergyLbs(f);
    assert ConsumptionLbs(f) < ConsumptionLbs(g);
  }

  /** The shares that reduce a category: renewable electricity, local food, recycling and composting. */
  predicate Reducing(field: NumericField) {
    field in {RenewablePercentage, LocalFoodPercentage, RecyclingPercentage, CompostingPercentage}
  }

  /**
   Raising one reducing share strictly lowers its category and the total; the
   renewable share matters only when some electricity is used.
   */
  lemma RaisingReducingShareLowersTotal(f: FootprintForm, field: NumericField, v: real)
    requires Plausible(f) && Reducing(field) && v > Get(f, field)
    requires field == RenewablePercentage ==> f.electricityUsage > 0.0
    ensures Computable(Set(f, field, v))
    ensures field == RenewablePercentage ==> HomeEnergyLbs(Set(f, field, v)) < HomeEnergyLbs(f)
    ensures field == LocalFoodPercentage ==> FoodLbs(Set(f, field, v)) < FoodLbs(f)
    ensures field in {RecyclingPercentage, CompostingPercentage} ==> WasteLbs(Set(f, field, v)) < WasteLbs(f)
    ensures TotalLbs(Set(f, field, v)) < TotalLbs(f)
    ensures CalculateFootprint(Set(f, field, v)).totalEmissions < CalculateFootprint(f).totalEmissions
  {
    if field == RenewablePercentage {
      LoweringRenewable(f, v);
    } else if field == LocalFoodPercentage {
      LoweringLocalFood(f, v);
    } else {
      LoweringWaste(f, field, v);
    }
    var g := Set(f, field, v);
    assert CalculateFootprint(g).totalEmissions * PoundsPerMetricTon
         < CalculateFootprint(f).totalEmissions * PoundsPerMetricTon;
  }

  lemma LoweringRenewable(f: FootprintForm, v: real)
    requires Plausible(f) && v > f.renewablePercentage && f.electricityUsage > 0.0
    ensures Computable(Set(f, RenewablePercentage, v))
    ensures HomeEnergyLbs(Set(f, RenewablePercentage, v)) < HomeEnergyLbs(f)
    ensures TotalLbs(Set(f, RenewablePercentage, v)) < TotalLbs(f)
  {
    var g := Set(f, RenewablePercentage, v);
    assert g == f.(renewablePercentage := v);
    assert FoodLbs(g) == FoodLbs(f);
    assert WasteLbs(g) == WasteLbs(f);
    assert TransportationLbs(g) == TransportationLbs(f);
    assert ConsumptionLbs(g) == ConsumptionLbs(f);
    var k := f.electricityUsage * 12.0 * 0.92;
    assert k > 0.0;
    assert ElectricityLbs(g) == k * (1.0 - v / 100.0);
    assert ElectricityLbs(f) == k * (1.0 - f.renewablePercentage / 100.0);
    var d := (v - f.renewablePercentage) / 100.0;
    assert d > 0.0;
    assert ElectricityLbs(f) - ElectricityLbs(g) == k * d;
    assert k * d > 0.0;
    assert NaturalGasLbs(g) == NaturalGasLbs(f);
    StrictDivide(ElectricityLbs(g) + NaturalGasLbs(g), ElectricityLbs(f) + NaturalGasLbs(f), f.householdSize);
  }

  lemma LoweringLocalFood(f: FootprintForm, v: real)
    requires Plausible(f) && v > f.localFoodPercentage
    ensures Computable(Set(f, LocalFoodPercentage, v))
    ensures FoodLbs(Set(f, LocalFoodPercentage, v)) < FoodLbs(f)
    ensures TotalLbs(Set(f, LocalFoodPercentage, v)) < TotalLbs(f)
  {
    var g := Set(f, LocalFoodPercentage, v);
    assert WasteLbs(g) == WasteLbs(f);
    assert TransportationLbs(g) == TransportationLbs(f);
    assert HomeEnergyLbs(g) == HomeEnergyLbs(f);
    assert ConsumptionLbs(g) == ConsumptionLbs(f);
    var k := DietFactor(f.dietType) * 2000.0;
    assert k > 0.0;
    assert FoodLbs(g) == k * (1.0 - v / 200.0);
    assert FoodLbs(f) == k * (1.0 - f.localFoodPercentage / 200.0);
  }

  lemma LoweringWaste(f: FootprintForm, field: NumericField, v: real)
    requires Plausible(f) && v > Get(f, field)
    requires field == RecyclingPercentage || field == CompostingPercentage
    ensures Computable(Set(f, field, v))
    ensures WasteLbs(Set(f, field, v)) < WasteLbs(f)
    ensures TotalLbs(Set(f, field, v)) < TotalLbs(f)
  {
    var g := Set(f, field, v);
    assert FoodLbs(g) == FoodLbs(f);
    assert TransportationLbs(g) == TransportationLbs(f);
    assert HomeEnergyLbs(g) == HomeEnergyLbs(f);
    assert ConsumptionLbs(g) == ConsumptionLbs(f);
  }

  /**
   The worked scenario: 100 miles a week at 25 mpg, two short flights, 800 kWh
   a month half renewable, a vegetarian diet and half the waste recycled, with
   everything else zero and one person, comes to 5076.8 lb of travel, 4416 lb
   of home energy, 3400 lb of food, nothing bought and 525 lb of waste.
   */
  lemma WorkedScenario()
    ensures var f := DefaultForm.(carMileage := 100.0, flightShortHaul := 2.0, electricityUsage := 800.0,
                                  renewablePercentage := 50.0, dietType := "vegetarian",
                                  recyclingPercentage := 50.0);
      && Computable(f)
      && TransportationLbs(f) == 5076.8
      && HomeEnergyLbs(f) == 4416.0
      && FoodLbs(f) == 3400.0
      && ConsumptionLbs(f) == 0.0
      && WasteLbs(f) == 525.0
      && CalculateFootprint(f).totalEmissions * PoundsPerMetricTon == 13417.8
  {
  }

  lemma StrictDivide(a: real, b: real, h: real)
    requires a < b && h > 0.0
    ensures a / h < b / h
  {
  }

  // ---------------------------------------------------------------------------
  // What the results panel shows

  /** The three comparison messages under the total, one condition each. */
  predicate ShowsSignificantlyBelow(total: real) { total < 8.0 }
  predicate ShowsRoomForImprovement(total: real) { total >= 8.0 && total < 16.0 }
  predicate ShowsAboveAverage(total: real) { total >= 16.0 }

  datatype Verdict = SignificantlyBelow | RoomForImprovement | AboveAverage

  /** The one message the panel shows for a total, in metric tons. */
  function VerdictFor(total: real): (v: Verdict)
    ensures v == SignificantlyBelow <==> ShowsSignificantlyBelow(total)
    ensures v == RoomForImprovement <==> ShowsRoomForImprovement(total)
    ensures v == AboveAverage <==> ShowsAboveAverage(total)
  {
    if total < 8.0 then SignificantlyBelow
    else if total < 16.0 then RoomForImprovement
    else AboveAverage
  }

  /** Exactly one of the three messages shows, whatever the total. */
  lemma ExactlyOneVerdict(total: real)
    ensures ShowsSignificantlyBelow(total) || ShowsRoomForImprovement(total) || ShowsAboveAverage(total)
    ensures !(ShowsSignificantlyBelow(total) && ShowsRoomForImprovement(total))
    ensures !(ShowsSignificantlyBelow(total) && ShowsAboveAverage(total))
    ensures !(ShowsRoomForImprovement(total) && ShowsAboveAverage(total))
  {
  }

  /**
   `Math.min(100, value / full * 100)`: the bar width in percent, full at
   `full` tons (20 for the total, 5 for a category).
   */
  function BarWidth(value: real, full: real): (w: real)
    requires full > 0.0
    ensures w <= 100.0
    ensures w == 100.0 <==> value >= full
    ensures value < full ==> w * full == value * 100.0
    ensures value >= 0.0 ==> w >= 0.0
  {
    var raw := value / full * 100.0;
    if raw < 100.0 then raw else 100.0
  }

  const TotalBarFull: real := 20.0
  const CategoryBarFull: real := 5.0

  /** The total bar fills at 20 t and a category bar at 5 t. */
  lemma FullBarThresholds(total: real, category: real)
    ensures BarWidth(total, TotalBarFull) == 100.0 <==> total >= 20.0
    ensures BarWidth(category, CategoryBarFull) == 100.0 <==> category >= 5.0
  {
  }

  lemma BarWidthMonotone(a: real, b: real, full: real)
    requires full > 0.0 && a <= b
    ensures BarWidth(a, full) <= BarWidth(b, full)
  {
    assert a / full <= b / full;
  }

  /**
   A category's badge before rounding: its percentage of the total, so the
   badge times the total gives back a hundred times the part, and a part no
   larger than a positive total gets a badge in [0, 100].
   */
  function Share(part: real, total: real): (r: real)
    requires total != 0.0
    ensures r * total == part * 100.0
    ensures 0.0 <= part <= total ==> 0.0 <= r <= 100.0
  {
    part / total * 100.0
  }

  /** The five badges of a non-zero result add up to 100 before rounding. */
  lemma SharesSumToHundred(f: FootprintForm)
    requires Computable(f)
    requires CalculateFootprint(f).totalEmissions != 0.0
    ensures var r := CalculateFootprint(f);
      Share(r.transportationEmissions, r.totalEmissions) + Share(r.homeEnergyEmissions, r.totalEmissions)
      + Share(r.foodEmissions, r.totalEmissions) + Share(r.consumptionEmissions, r.totalEmissions)
      + Share(r.wasteEmissions, r.totalEmissions) == 100.0
  {
    var r := CalculateFootprint(f);
    var t := r.totalEmissions;
    var c := 100.0 / t;
    assert t * c == 100.0;
    assert Share(r.transportationEmissions, t) == r.transportationEmissions * c;
    assert Share(r.homeEnergyEmissions, t) == r.homeEnergyEmissions * c;
    assert Share(r.foodEmissions, t) == r.foodEmissions * c;
    assert Share(r.consumptionEmissions, t) == r.consumptionEmissions * c;
    assert Share(r.wasteEmissions, t) == r.wasteEmissions * c;
  }
}

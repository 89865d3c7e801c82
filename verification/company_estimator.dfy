/**
 The quick business estimator of the "what we do" page: four inputs, a
 calculate button that only reveals the results, and four result lines with
 their total, all in tons of CO2e per year.
 */
module CompanyEstimator {

  datatype CompanyInputs = CompanyInputs(
    industryType: string,
    employeeCount: real,
    energyConsumption: real,   // kWh per year
    wasteGenerated: real,      // tons per year
    transportEmissions: real   // tons of CO2 per year, entered directly
  )

  datatype Page = Page(inputs: CompanyInputs, showResults: bool)

  const DefaultInputs: CompanyInputs := CompanyInputs("manufacturing", 100.0, 50000.0, 500.0, 250.0)

  const InitialPage: Page := Page(DefaultInputs, false)

  /** The four result lines and the total line. */
  datatype Breakdown = Breakdown(energy: real, waste: real, transport: real, employees: real, total: real)

  /**
   The results panel: half a kilogram per kWh, 0.8 t per ton of waste, the
   transport figure as entered and 1.2 t per employee; the total line is
   computed on its own from the inputs and agrees with the four lines.
   */
  function Estimate(i: CompanyInputs): (b: Breakdown)
    ensures b.energy * 2000.0 == i.energyConsumption
    ensures b.waste * 5.0 == i.wasteGenerated * 4.0
    ensures b.transport == i.transportEmissions
    ensures b.employees * 5.0 == i.employeeCount * 6.0
    ensures b.total == b.energy + b.waste + b.transport + b.employees
  {
    Breakdown(
      i.energyConsumption * 0.0005,
      i.wasteGenerated * 0.8,
      i.transportEmissions,
      i.employeeCount * 1.2,
      i.energyConsumption * 0.0005 + i.wasteGenerated * 0.8 + i.transportEmissions + i.employeeCount * 1.2)
  }

  /** The industry select is shown but enters no figure. */
  lemma IndustryIsIgnored(i: CompanyInputs, industry: string)
    ensures Estimate(i.(industryType := industry)) == Estimate(i)
  {
  }

  /** The inputs the page starts with give 25 + 400 + 250 + 120 = 795. */
  lemma DefaultEstimate()
    ensures Estimate(DefaultInputs) == Breakdown(25.0, 400.0, 250.0, 120.0, 795.0)
  {
  }

  /** The page starts with nothing shown; one press shows the default estimate. */
  lemma FirstCalculation()
    ensures Displayed(InitialPage) == []
    ensures Displayed(Calculate(InitialPage)) == [Breakdown(25.0, 400.0, 250.0, 120.0, 795.0)]
  {
    DefaultEstimate();
  }

  /** No smaller input gives a larger total. */
  lemma EstimateMonotone(i: CompanyInputs, j: CompanyInputs)
    requires i.employeeCount <= j.employeeCount
    requires i.energyConsumption <= j.energyConsumption
    requires i.wasteGenerated <= j.wasteGenerated
    requires i.transportEmissions <= j.transportEmissions
    ensures Estimate(i).total <= Estimate(j).total
  {
  }

  /** The calculate button: reveals the results and changes nothing else. */
  function Calculate(p: Page): (r: Page)
    ensures r.showResults
    ensures r.inputs == p.inputs
  {
    p.(showResults := true)
  }

  lemma CalculateIdempotent(p: Page)
    ensures Calculate(Calculate(p)) == Calculate(p)
  {
  }

  /** The four number inputs. */
  datatype InputField = EmployeeCount | EnergyConsumption | WasteGenerated | TransportEmissions

  function InputOf(i: CompanyInputs, field: InputField): real {
    match field
    case EmployeeCount => i.employeeCount
    case EnergyConsumption => i.energyConsumption
    case WasteGenerated => i.wasteGenerated
    case TransportEmissions => i.transportEmissions
  }

  /**
   A number input's `onChange`: the field takes the converted value (`Number`
   of the text, passed in already converted); nothing else changes, and the
   results stay shown or hidden as they were.
   */
  function SetInput(p: Page, field: InputField, v: real): (r: Page)
    ensures InputOf(r.inputs, field) == v
    ensures forall g :: g != field ==> InputOf(r.inputs, g) == InputOf(p.inputs, g)
    ensures r.inputs.industryType == p.inputs.industryType
    ensures r.showResults == p.showResults
  {
    var i := p.inputs;
    var i' := match field
      case EmployeeCount => i.(employeeCount := v)
      case EnergyConsumption => i.(energyConsumption := v)
      case WasteGenerated => i.(wasteGenerated := v)
      case TransportEmissions => i.(transportEmissions := v);
    p.(inputs := i')
  }

  /** The industry select's `onChange`. */
  function SelectIndustry(p: Page, industry: string): (r: Page)
    ensures r.inputs.industryType == industry
    ensures forall g :: InputOf(r.inputs, g) == InputOf(p.inputs, g)
    ensures r.showResults == p.showResults
  {
    p.(inputs := p.inputs.(industryType := industry))
  }

  /**
   Once calculated, the panel follows the inputs: after any edit it shows the
   estimate of the edited inputs, with no second press of the button.
   */
  lemma ResultsFollowEdits(p: Page, edits: seq<(InputField, real)>)
    requires p.showResults
    ensures Displayed(ApplyEdits(p, edits)) == [Estimate(ApplyEdits(p, edits).inputs)]
  {
  }

  /** Number-input edits in order. */
  function ApplyEdits(p: Page, edits: seq<(InputField, real)>): (r: Page)
    ensures r.showResults == p.showResults
    decreases |edits|
  {
    if edits == [] then p else ApplyEdits(SetInput(p, edits[0].0, edits[0].1), edits[1..])
  }

  /** What the results panel shows: nothing before the first calculation, then the live estimate. */
  function Displayed(p: Page): (d: seq<Breakdown>)
    ensures |d| <= 1
    ensures |d| == 1 <==> p.showResults
    ensures p.showResults ==> d[0].total == d[0].energy + d[0].waste + d[0].transport + d[0].employees
  {
    if p.showResults then [Estimate(p.inputs)] else []
  }
}

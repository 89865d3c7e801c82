# clearbon: a Dafny model of the site's interactive pages

This project models the client-side logic of the clearbon carbon-footprint
website: the parts of its pages that compute or decide something.

- **Calculator** (`calculator.dfy`): the personal footprint calculator. It
  covers
  - the form record;
  - numeric inputs, where a blank stores 0 and anything else is parsed;
  - the weighted sum over transport, home energy, food, consumption and waste,
    in pounds of CO2 and then in metric tons (2204.62 lb each);
  - the three-band comparison message under the total;
  - the progress bars, capped at 100%;
  - the percentage badges.
- **Register** (`register.dfy`): the registration page. It covers
  - the form and the per-field error map;
  - the six validation rules run on submit, including the unanchored email
    pattern `\S+@\S+\.\S+`, which a one-pass scanner recognises;
  - removal of an error entry when its input is edited;
  - the company/NGO toggle;
  - the submit outcome.
- **News** (`news.dfy`): the news page. It covers the category buttons (`"all"`
  followed by the distinct item categories in first-use order) and the filter
  by a case-insensitive search term and the active category.
- **CompanyEstimator** (`company_estimator.dfy`): the quick business estimator
  on the "what we do" page. It has four number inputs, an industry select and a
  button that reveals a live breakdown in tons of CO2e.
- **Login** (`login.dfy`): the login form. Submitting shows a spinner. After a
  delay it succeeds when both credentials are filled in and shows an error
  otherwise.
- **Footer** (`footer.dfy`): the link paths the footer derives from its labels,
  `/` followed by the label lower-cased with each run of whitespace replaced by
  `-`.
- **Text** (`text.dfy`): the string operations these pages share, namely `\s`,
  `toLowerCase`, `trim` and `includes` in their ASCII reading, and `length`,
  which counts UTF-16 code units.

Every page is modelled as immutable state plus pure transition functions. A
React state update becomes a function from the old state to the new one.
Arithmetic is over `real`. The page itself computes in IEEE doubles.

`Footer.Routes` lists the paths of the page directories under `src/app` in the
sources this model follows.

## Model

| member | source | states |
|---|---|---|
| Calculator.HandleInputChange | src/app/calculator/page.tsx:79-85 | an empty input stores 0, any other stores the parsed value, and every other field and the diet are unchanged |
| Calculator.HandleSelectChange | src/app/calculator/page.tsx:88-94 | the diet takes the raw option string and no numeric field changes |
| Calculator.DietFactor | src/app/calculator/page.tsx:111-118 | every diet factor lies in [1.5, 3.3], and any unrecognised diet counts as omnivore (3.3) |
| Calculator.CalculateFootprint | src/app/calculator/page.tsx:97-152 | each reported figure times 2204.62 is its category's pounds, the total is the sum of the five categories, and the results become visible |
| Calculator.DietOrdering | src/app/calculator/page.tsx:111-120 | for a fixed local share, vegan < vegetarian < pescatarian < omnivore in food emissions, and an unknown diet weighs as omnivore |
| Calculator.FullyLocalFoodHalves | src/app/calculator/page.tsx:120 | a 100% local diet emits exactly half the same diet with no local share |
| Calculator.FullRenewableZeroesElectricity | src/app/calculator/page.tsx:106-108 | at 100% renewable, electricity contributes nothing and home energy is gas per person |
| Calculator.WasteBounds | src/app/calculator/page.tsx:127-130 | with both shares in [0, 100], waste lies in [140, 700] lb and equals 700 exactly when both shares are 0 |
| Calculator.DefaultEstimate | src/app/calculator/page.tsx:41-65 | the initial form comes to 7300 lb in total, 6600 of it food |
| Calculator.WorkedScenario | src/app/calculator/page.tsx:97-139 | a worked household comes to 5076.8 lb of travel, 4416 of home energy, 3400 of food, 0 of purchases and 525 of waste, 13417.8 lb in total |
| Calculator.TransportationMonotone | src/app/calculator/page.tsx:99-103 | more driving, flying or transit never lowers transport emissions |
| Calculator.HomeEnergyMonotone | src/app/calculator/page.tsx:106-108 | more energy use or a lower renewable share never lowers electricity or home-energy emissions |
| Calculator.FoodMonotone | src/app/calculator/page.tsx:120 | a lower local share never lowers food emissions |
| Calculator.FootprintMonotone | src/app/calculator/page.tsx:97-152 | for plausible inputs, a more intensive lifestyle never gives a smaller category or total |
| Calculator.RaisingEmittingInputRaisesTotal | src/app/calculator/page.tsx:97-139 | raising any emitting input strictly raises its own category and the total; electricity needs a renewable share below 100% |
| Calculator.RaisingTravel | src/app/calculator/page.tsx:99-103 | raising a travel input strictly raises transport emissions and the total |
| Calculator.RaisingHomeEnergy | src/app/calculator/page.tsx:106-108 | raising electricity or gas use strictly raises home-energy emissions and the total |
| Calculator.RaisingPurchases | src/app/calculator/page.tsx:123-124 | buying more clothing or electronics strictly raises consumption emissions and the total |
| Calculator.RaisingReducingShareLowersTotal | src/app/calculator/page.tsx:97-139 | raising the renewable, local-food, recycling or composting share strictly lowers its category and the total; renewable needs some electricity use |
| Calculator.LoweringRenewable | src/app/calculator/page.tsx:106-108 | with some electricity use, a higher renewable share strictly lowers home energy and the total |
| Calculator.LoweringLocalFood | src/app/calculator/page.tsx:120 | a higher local share strictly lowers food and the total |
| Calculator.LoweringWaste | src/app/calculator/page.tsx:127-130 | a higher recycling or composting share strictly lowers waste and the total |
| Calculator.VerdictFor | src/app/calculator/page.tsx:514-537 | the message shown is "significantly below" exactly under 8 t, "room for improvement" exactly in [8, 16) and "above average" exactly from 16 t |
| Calculator.ExactlyOneVerdict | src/app/calculator/page.tsx:514-537 | for any total, exactly one of the three message conditions holds |
| Calculator.BarWidth | src/app/calculator/page.tsx:494 | the width never exceeds 100, is 100 exactly at or above the full value, is proportional below it, and is non-negative for a non-negative value |
| Calculator.BarWidthMonotone | src/app/calculator/page.tsx:553 | a larger value never gives a narrower bar |
| Calculator.FullBarThresholds | src/app/calculator/page.tsx:494-553 | the total bar is full exactly from 20 t and a category bar exactly from 5 t |
| Calculator.ResultsShowOnlyAfterCalculating | src/app/calculator/page.tsx:68-76 | the results panel starts hidden and is shown after any calculation |
| Calculator.Share | src/app/calculator/page.tsx:548 | the unrounded badge times the total is a hundred times the part, and a part within a positive total gets a badge in [0, 100] |
| Calculator.SharesSumToHundred | src/app/calculator/page.tsx:548-608 | for a non-zero total, the five unrounded badges add up to 100 |
| Text.Blank | src/app/register/page.tsx:64 | `!s.trim()` holds exactly for strings made only of whitespace, the empty one included |
| Register.SetText | src/app/register/page.tsx:38-46 | the named text input takes the value and every other input is unchanged |
| Text.Utf16Length | src/app/register/page.tsx:69 | `length` is never less than the character count nor more than twice it, is 0 only for the empty string, and equals the character count exactly when no character lies above U+FFFF |
| Register.EmailPattern | src/app/register/page.tsx:66 | a string the pattern `\S+@\S+\.\S+` matches has at least five characters, among them an `@` and a `.` |
| Register.TestEmailPattern | src/app/register/page.tsx:66 | the one-pass scan answers true exactly when `\S+@\S+\.\S+` occurs somewhere in the string |
| Register.Validate | src/app/register/page.tsx:58-76 | each field is flagged exactly when its rule fails, with the rule's message; the password is measured in UTF-16 code units; only the six validated fields can be flagged, and no message is empty |
| Register.AstralPasswordLongEnough | src/app/register/page.tsx:69 | a password of four characters from above U+FFFF is eight code units long, so it draws no password message |
| Register.ValidateTypeOnlyRenames | src/app/register/page.tsx:73-74 | both registration types flag the same fields with the same messages, except the organisation message |
| Register.ValidateEmptyIffAcceptable | src/app/register/page.tsx:58-78 | validation finds nothing exactly when the form is acceptable |
| Register.EmptyFormFlags | src/app/register/page.tsx:17-35 | the page as first shown fails every rule except the confirmation, and the password message is the "required" one |
| Register.HandleChange | src/app/register/page.tsx:38-55 | the changed input takes its value, its error entry goes if it holds a message, and nothing else changes |
| Register.HandleChangeRemovesOnlyItsError | src/app/register/page.tsx:47-54 | when every stored message is non-empty, an edit removes exactly its own field's entry |
| Register.SelectType | src/app/register/page.tsx:124-138 | the toggle sets the type and leaves the form and errors unchanged |
| Register.SubmitAsWritten | src/app/register/page.tsx:58-86 | once the submit handler runs, it registers exactly when validation finds nothing; a rejection stores the new errors, while a registration keeps the old ones |
| Register.StaleErrorSurvivesRegistration | src/app/register/page.tsx:78-85 | for any form whose only fault is a mismatched confirmation: the submit is rejected, and after the password is retyped to match, the page registers with "Passwords do not match" still stored |
| Register.MismatchOnlyExample | src/app/register/page.tsx:58-76 | a concrete form whose only fault is a confirmation one character off the password |
| Register.Submit | src/app/register/page.tsx:58-86 | corrected submit: registers exactly for acceptable forms and always stores the fresh errors, so a registration shows none |
| Register.SubmitDiffersOnlyOnStaleErrors | src/app/register/page.tsx:78-85 | the two submits agree on the outcome and on a rejected page, and differ exactly when a registration meets stored errors |
| News.Distinct | src/app/news/page.tsx:96 | the result holds the same elements as the input, none twice, ordered by first occurrence |
| News.Categories | src/app/news/page.tsx:94-97 | "all" comes first, then each category used by an item exactly once, in first-use order |
| News.FilterNews | src/app/news/page.tsx:100-105 | the shown items are exactly those matching the search and category, each as often as in the input and in input order; a specific category shows only its items |
| News.EmptySearchShowsAll | src/app/news/page.tsx:26-27 | the initial page, with no term and "all", lists every item in order |
| News.SearchIgnoresTermCase | src/app/news/page.tsx:101-102 | lower-casing the search term never changes the list |
| News.EveryCategoryHasItems | src/app/news/page.tsx:94-105 | with no term, every category button leads to at least one item |
| CompanyEstimator.Estimate | src/app/what-we-do/page.tsx:246-275 | 0.0005 t per kWh, 0.8 t per ton of waste, transport as entered and 1.2 t per employee, with a total equal to the sum of the four lines |
| CompanyEstimator.IndustryIsIgnored | src/app/what-we-do/page.tsx:159-160 | the industry choice never changes the estimate |
| CompanyEstimator.DefaultEstimate | src/app/what-we-do/page.tsx:28-33 | the initial inputs give 25 + 400 + 250 + 120 = 795 t |
| CompanyEstimator.FirstCalculation | src/app/what-we-do/page.tsx:28-33 | nothing is shown at first, and one press shows the 795 t default estimate |
| CompanyEstimator.EstimateMonotone | src/app/what-we-do/page.tsx:270-275 | no smaller set of inputs gives a larger total |
| CompanyEstimator.Calculate | src/app/what-we-do/page.tsx:36-38 | the button reveals the results and leaves the inputs unchanged |
| CompanyEstimator.CalculateIdempotent | src/app/what-we-do/page.tsx:36-38 | pressing the button twice is the same as pressing it once |
| CompanyEstimator.SetInput | src/app/what-we-do/page.tsx:177-215 | the edited number input takes its value, and the other inputs, the industry and the visibility are unchanged |
| CompanyEstimator.SelectIndustry | src/app/what-we-do/page.tsx:159-160 | the industry takes its value, and the numbers and the visibility are unchanged |
| CompanyEstimator.ResultsFollowEdits | src/app/what-we-do/page.tsx:231-275 | once revealed, the panel shows the estimate of the current inputs after any sequence of edits |
| CompanyEstimator.ApplyEdits | src/app/what-we-do/page.tsx:177-215 | a sequence of number edits never changes whether results are shown |
| CompanyEstimator.Displayed | src/app/what-we-do/page.tsx:231 | the panel shows one breakdown exactly when revealed, and its total is the sum of its lines |
| Login.HandleChange | src/app/login/page.tsx:22-28 | a text input takes its value, the checkbox takes its state, and nothing else changes |
| Login.BeginSubmit | src/app/login/page.tsx:31-34 | the error is cleared and the spinner shown, with the form and the success flag unchanged |
| Login.FinishSubmit | src/app/login/page.tsx:37-44 | the spinner stops; filled credentials from submit time give success, missing ones give the message |
| Login.SubmitOutcome | src/app/login/page.tsx:31-45 | once the submit handler runs, and with no edits during the wait, the page ends in success exactly when both fields were filled in, and otherwise shows the error |
| Login.SubmitKeepsCoherent | src/app/login/page.tsx:31-45 | from a coherent form page, edits and a submission never show an error beside the spinner or beside a success |
| Login.InitialPageCoherent | src/app/login/page.tsx:10-19 | the page starts coherent, stays coherent through any edits and a submission, and an untouched submit reports the missing credentials |
| Login.ApplyAll | src/app/login/page.tsx:22-28 | edits never touch the spinner, the success flag or the error |
| Footer.Slug | src/components/Footer.tsx:176 | the slug has no whitespace, is never longer than the label, and is empty only for the empty label |
| Footer.Href | src/components/Footer.tsx:176 | the path is "/" followed by the label's slug |
| Footer.SlugFromAppend | src/components/Footer.tsx:176 | the slug of a concatenation is the slugs of its parts, the second started according to how the first ended |
| Footer.SlugOfRun | src/components/Footer.tsx:176 | a whole whitespace run between two visible characters becomes a single "-" |
| Footer.SlugHasNoWhitespace | src/components/Footer.tsx:176 | no slug contains whitespace |
| Footer.SlugNoLonger | src/components/Footer.tsx:176 | a slug is never longer than its label, and is empty only for the empty label |
| Footer.SlugWithoutWhitespace | src/components/Footer.tsx:176 | a label without whitespace slugs to its lower-cased self |
| Footer.SlugKeepsVisibleOrder | src/components/Footer.tsx:176 | leaving out dashes and whitespace, the slug is the lower-cased label |
| Footer.SlugOfTwoWords | src/components/Footer.tsx:174-176 | two whitespace-free words joined by a space give "a-b" lower-cased |
| Footer.SlugOfThreeWords | src/components/Footer.tsx:202-204 | three whitespace-free words joined by spaces give "a-b-c" lower-cased |
| Footer.ContactUsHref | src/components/Footer.tsx:174-176 | "Contact Us" links to "/contact-us" |
| Footer.TermsHref | src/components/Footer.tsx:202-204 | "Terms & Conditions" links to "/terms-&-conditions" |
| Footer.UnroutedLinks | src/components/Footer.tsx:174-204 | the footer's "Contact Us" and "Terms & Conditions" paths are not among the site's pages |
| Footer.CorrectedHref | src/components/Footer.tsx:174-204 | corrected links: a path changes only when the derived one leads to no page, and then it leads to a page |
| Footer.CorrectedLinksRouted | src/components/Footer.tsx:225-231 | corrected, "Contact Us" leads to `/contact` and "Terms & Conditions" to `/terms-conditions`, the pages the footer's bottom bar links, and every other label keeps its derived path |

## Left out

- IEEE floating point: rounding, `NaN` and `Infinity` are not modelled. All arithmetic is exact over `real`.
- `parseFloat` and `Number` are not defined here. The calculator takes the parser as a parameter, and the estimator takes the already converted number.
- Calculator.CalculateFootprint: requires a non-zero car efficiency and household size, because the page divides by both unguarded and gets `Infinity` or `NaN`, which real arithmetic cannot express. Calculator.TotalLbs, Calculator.CarLbs and Calculator.HomeEnergyLbs have the same requirement.
- Calculator.SharesSumToHundred: requires a non-zero total, because the page's badges are `NaN` there.
- `toFixed` and `Math.round` formatting of displayed figures is not modelled. Every property is about the unrounded values.
- Text.Lower: Unicode case folding is not modelled; only ASCII letters are lowered. Text.IsWhitespace likewise covers only the ASCII members of `\s`.
- The login wait (`setTimeout`) is not modelled. It is split into the state before (`BeginSubmit`) and after (`FinishSubmit`) the callback. The disabled state of the submit button is modelled only as the `isLoading` flag.
- `alert`, `console.log`, scrolling and rendering, animations, icons and styling are not modelled.
- The news search box and category buttons are plain setters of `searchTerm` and `activeCategory`. They are modelled only as the inputs of `FilterNews`.
- The footer's labels "Carbon Calculator" and "For Individuals" also lead to paths with no page. They are not proved, because the page each was meant to reach cannot be told from the sources.
- Register.SubmitAsWritten: the model starts at the submit handler. The email input has `type="email"` in a form without `noValidate` (src/app/register/page.tsx:154, 189), so the browser's own email check blocks the submit first for a non-empty value that is not a valid email address, such as "a@b.c d". That check is not modelled, and the same holds for Register.Submit.
- Login.SubmitOutcome: the model starts at the submit handler. The email input has `type="email"` in a form without `noValidate` (src/app/login/page.tsx:91, 107), so the browser blocks the submit first for a non-empty email that is not a valid address, such as "abc", and no spinner shows. That check is not modelled.
- Footer.Routes: lists only the page directories present under `src/app`. A route served another way would not be in it.
- The footer's copyright year reads the clock and is not modelled.
- The contact page, the header, the news article page and the static information pages are not part of this model.

## Findings

| source | as written | input that shows it | evidently intended | confidence | as-written member | corrected member |
|---|---|---|---|---|---|---|
| src/app/register/page.tsx:78-85 | a successful submit never calls `setErrors`, so messages stored earlier stay on screen after registering | the form of `MismatchOnlyExample` (password "12345678", confirmation "12345679", every other rule met): submit it (stores "Passwords do not match"), retype the password to match (clears only the password entry), submit again: it registers and the mismatch message is still shown | a successful submit clears the error map | not executed | Register.StaleErrorSurvivesRegistration | Register.Submit |
| src/components/Footer.tsx:174-204 | each link's path is derived from its label, so "Contact Us" leads to `/contact-us` and "Terms & Conditions" to `/terms-&-conditions`, where no page directory exists | the labels "Contact Us" and "Terms & Conditions" | links to `/contact` and `/terms-conditions`, where the pages are and which the footer's bottom bar (lines 225-231) already uses | not executed | Footer.UnroutedLinks | Footer.CorrectedHref |

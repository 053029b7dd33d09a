# PharmaClear recall normalisation and severity, in Dafny

PharmaClear's backends turn drug-safety records into alerts for its dashboard.
This project models the deterministic part of that work in two backends.

- **`backend/main.py`** serves `/api/search`. `search_drugs` asks the openFDA
  enforcement endpoint for recalls matching a query. It maps every recall, in
  order, to an alert: a title cut at the first `.`, defaults for missing fields,
  the fixed source `FDA`, a fixed listing URL, and a severity from
  `get_severity`. It answers `{results, total}`. `get_severity` is a
  case-insensitive substring classifier. Because it tests `'class i'` before
  `'class ii'`, every FDA recall class (I, II and III) comes out `high`, and the
  `'class ii'` test of the medium branch never decides anything. The model
  keeps that behaviour and proves it (`RecallSeverity.ClassTwoIsHigh`,
  `RecallSeverity.EveryRecallClassIsHigh`).
- **`backend/app.py`** holds `FDAScraper`. `fetch_safety_alerts` walks the
  `div.content-box` blocks of the FDA drug-safety page. It skips every block
  that lacks an `h3`, a `p.date`, a `p.description` or an `a` with `href`, and
  keeps the others in page order. For each kept block it prefixes the link with
  `https://www.fda.gov` and grades the block with `_determine_severity`, a
  keyword classifier over the lower-cased title and description.

Modules:

- `Wrappers`: `Option` for missing keys and elements, `Result` for error returns.
- `Text`: ASCII `Lower`, the substring test `Contains` (Python's `in`),
  `Strip` (`str.strip()`, with Python's whitespace set) and `BeforeFirst`
  (`s.split(sep)[0]`).
- `RecallSeverity`: `get_severity`.
- `FdaSearch`: `search_drugs` and its mapping loop.
- `ScraperSeverity`: `FDAScraper._determine_severity`.
- `SafetyAlerts`: `FDAScraper.fetch_safety_alerts` and its block loop.

The HTTP exchange of `search_drugs` is a parameter, `FetchOutcome`. It says
whether `raise_for_status()` raised (with its status code), whether anything
else failed, or else what the decoded `results` list was. The scraped page is a
parameter too: `None` when the request or the parsing failed, otherwise the
list of its blocks. Each block is a record of the optional texts and link the
loop looks up.

Facts about the code that the model keeps as they are:

- `get_severity` tests substrings, so `Class I`, `Class II` and `Class III` all give
  `high` (`RecallSeverity.EveryRecallClassIsHigh`).
- Every FDA alert links to one fixed listing URL, whatever its recall number or
  event id.
- The recall initiation date is passed through unchanged, in the upstream
  `YYYYMMDD` form.
- The title can be empty, when the product description is empty or starts with
  `.` (`FdaSearch.TitleCanBeEmpty`).
- Only the FDA is queried. The code has no second agency, no date, source or
  severity filters and no sorting, so the model has none either.

## Model

| member | source | states |
|---|---|---|
| RecallSeverity.GetSeverity | backend/main.py:151-159 | the severity is always one of `low`, `medium`, `high`; the empty string gives `low` |
| RecallSeverity.GetSeverityIgnoresCase | backend/main.py:154 | lower-casing the input first never changes the severity |
| RecallSeverity.GetSeverityHigh | backend/main.py:155-156 | `high` exactly when the lower-cased text contains `class i` or `serious` |
| RecallSeverity.ClassTwoContainsClassOne | backend/main.py:155-157 | any text containing `class ii` contains `class i` |
| RecallSeverity.ClassTwoIsHigh | backend/main.py:155-158 | a text mentioning `class ii` in any case is `high`, so the `class ii` test of the medium branch is dead |
| RecallSeverity.GetSeverityMedium | backend/main.py:157-158 | `medium` exactly when `class ii` or `temporary` occurs and neither `class i` nor `serious` does; equivalently, when only `temporary` matches |
| RecallSeverity.GetSeverityLow | backend/main.py:152-159 | `low` exactly when none of `class i`, `serious`, `temporary` occurs |
| RecallSeverity.EveryRecallClassIsHigh | backend/main.py:151-159 | `Class I`, `Class II` and `Class III` all give `high` |
| RecallSeverity.StartsClassOneIsHigh | backend/main.py:154-156 | any classification starting with `Class I` gives `high` |
| Text.Lower | backend/main.py:154 | lower-casing keeps the length and lower-cases each character on its own (ASCII letters) |
| Text.Contains | backend/main.py:155-157 | Python's `in` on strings: the empty pattern and the text itself always occur, and no occurrence is longer than the text (its behaviour on joined and extended texts is stated by `Text.ContainsAroundSeparator` and `Text.ContainsPrefixOf`) |
| Text.ContainsPrefixOf | backend/main.py:155-157 | a text that contains `p + q` contains `p`, which makes the `class ii` test imply the `class i` test |
| Text.BeforeFirst | backend/main.py:128 | `split('.')[0]` is a prefix of the text, holds no `.`, and is followed by a `.` when shorter than the text |
| Text.BeforeFirstWithoutSeparator | backend/main.py:128 | a text without `.` is its own first piece |
| FdaSearch.ToAlert | backend/main.py:127-135 | the alert's title holds no `.` and is no longer than the product description (or its default); the source is `FDA` |
| FdaSearch.AlertOfRecall | backend/main.py:127-135 | the alert's title is the description (default `No Title`) up to its first `.`; description, date and components are passed through or take the defaults `No Description`, empty string and empty list; source is `FDA`; the link is the fixed listing page; severity is `get_severity` of the classification (default empty string), so one of the three and `low` when classification is missing |
| FdaSearch.MapRecalls | backend/main.py:125-136 | one alert per recall, in input order, each built from its recall |
| FdaSearch.SearchDrugs | backend/main.py:116-141 | empty query gives `{[], 0}`; an upstream status error is re-raised with its code; any other failure gives 500; otherwise one alert per recall in order (none when `results` is missing) and `total` equals their number |
| FdaSearch.SearchResponseShape | backend/main.py:125-137 | every alert of a mapped list has source `FDA`, the fixed link, one of the three severities and a title without `.` |
| FdaSearch.TitleCanBeEmpty | backend/main.py:128 | a product description that is empty or starts with `.` gives an empty title |
| Text.Strip | backend/app.py:27-29 | `strip()` never lengthens the text, and a non-empty result neither starts nor ends with whitespace |
| Text.StripTrims | backend/app.py:27-29 | `strip()` removes only whitespace, from both ends; the result neither starts nor ends with whitespace and is empty exactly when the text is all whitespace |
| Text.StripIdempotent | backend/app.py:27-29 | stripping twice is stripping once |
| Text.ContainsAroundSeparator | backend/app.py:54-58 | a space-free keyword occurs in `a + ' ' + b` exactly when it occurs in `a` or in `b` |
| ScraperSeverity.SearchText | backend/app.py:54 | the searched text is the lower-cased title, one space, the lower-cased description |
| ScraperSeverity.AnyKeyword | backend/app.py:56-58 | Python's `any(k in text for k in keywords)`: false for no keywords, true when the empty keyword or the text itself is listed (its behaviour on the joined title and description is stated by `ScraperSeverity.AnyKeywordPerField`) |
| ScraperSeverity.DetermineSeverity | backend/app.py:50-60 | the result is always `High`, `Medium` or `Low`, capitalised |
| ScraperSeverity.DetermineSeverityCases | backend/app.py:54-60 | `High` exactly when an urgent keyword occurs, whatever warning keywords occur too; `Medium` exactly when no urgent but some warning keyword occurs; `Low` otherwise |
| ScraperSeverity.DetermineSeverityIgnoresCase | backend/app.py:54 | changing the letter case of title or description never changes the severity |
| ScraperSeverity.KeywordsHaveNoSpace | backend/app.py:51-52 | no urgent or warning keyword contains a space |
| ScraperSeverity.AnyKeywordPerField | backend/app.py:54-58 | a keyword list matches the joined text exactly when it matches the lower-cased title or the lower-cased description |
| ScraperSeverity.DetermineSeverityPerField | backend/app.py:50-60 | `High` exactly when title or description holds an urgent keyword; `Medium` exactly when neither does and one holds a warning keyword |
| ScraperSeverity.RecallOutranksRisk | backend/app.py:51-57 | title `Recall` with description `Risk` is `High` although `risk` is a warning keyword |
| SafetyAlerts.MakeAlert | backend/app.py:27-38 | the alert has agency `FDA`, a link made of `https://www.fda.gov` followed by the href, title, date and description that neither start nor end with whitespace, and one of the three severities |
| SafetyAlerts.ParseBlock | backend/app.py:26-43 | a block yields an alert exactly when it has an `h3`, a date, a description and an `a` with `href` |
| SafetyAlerts.FetchSafetyAlerts | backend/app.py:16-48 | a failed fetch gives no alerts; otherwise the loop's result is the in-order extraction of the blocks |
| SafetyAlerts.FilterMap | backend/app.py:21-45 | keeping the values a parse yields, in order, never lengthens the list |
| SafetyAlerts.Extract | backend/app.py:21-45 | there are never more alerts than blocks |
| SafetyAlerts.FilterMapAppend | backend/app.py:21-45 | extracting from two runs of blocks one after the other gives the two results one after the other, so page order is kept |
| SafetyAlerts.ExtractSkipsIncomplete | backend/app.py:41-43 | an incomplete block is dropped and leaves the alerts of the blocks around it unchanged |
| SafetyAlerts.ExtractKeepsComplete | backend/app.py:32-40 | a complete block contributes exactly its own alert, at its place |
| SafetyAlerts.ExtractAllComplete | backend/app.py:25-40 | when every block is complete there is one alert per block, in block order |
| SafetyAlerts.ExtractMembership | backend/app.py:25-43 | an alert is in the output exactly when some complete block yields it |
| SafetyAlerts.AlertOfBlock | backend/app.py:27-38 | the alert has agency `FDA`, link `https://www.fda.gov` + href, stripped title, date and description, and the severity of that title and description |

## Left out

- The HTTP requests themselves: the openFDA URL with its 180-day `report_date` window and `limit=100` (backend/main.py:118-122), and the scraper's base URL and `User-Agent` header (backend/app.py:10-18). Their outcome is a parameter of the model.
- `response.json()` and BeautifulSoup parsing: the decoded recall list and the list of blocks are inputs.
- `get_date_range` (backend/main.py:144-149): it reads the clock and formats dates.
- FdaSearch.SearchDrugs: keeps only the status code of the raised `HTTPException`, not its `detail` message text.
- Recall fields are modelled as strings or absent. A JSON `null` or non-string value is not modelled. In the source such a `product_description` makes `.split` raise, which becomes status 500.
- Text.Lower: lower-cases ASCII letters only. Python's `str.lower()` also lower-cases non-ASCII letters.
- Logging with `print` (backend/app.py:42, 47): it has no effect on the result.
- FastAPI and Flask routing, CORS, `auth.get_current_user`, and the `min_length=2` validation of `q`: framework plumbing. The model's `SearchDrugs` accepts any query, as the function body does.
- `backend/alerter.py`, `models.py`, `schemas.py`, `crud.py`, `database.py`, `config.py`, `security.py` and the React frontend: scheduling, storage, hashing and UI code, not part of this model.

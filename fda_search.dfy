/**
 * The `/api/search` handler of backend/main.py (`search_drugs`): an empty query
 * gives an empty answer; otherwise the openFDA enforcement endpoint is queried and
 * every recall it returns is mapped, in order, to one alert. The HTTP exchange is
 * abstracted as a `FetchOutcome`: what the request, `raise_for_status()` and
 * `response.json()` together produced.
 */
module FdaSearch {
  import opened Wrappers
  import opened Text
  import opened RecallSeverity

  /** The `openfda` object of a recall; only `substance_name` is read. */
  datatype OpenFda = OpenFda(substanceName: Option<seq<string>>)

  /** One element of the upstream `results` array; a `None` field is a missing key. */
  datatype Recall = Recall(
    productDescription: Option<string>,
    reasonForRecall: Option<string>,
    recallInitiationDate: Option<string>,
    classification: Option<string>,
    openfda: Option<OpenFda>)

  /** The alert dictionary the handler builds for each recall. */
  datatype FdaAlert = FdaAlert(
    title: string,
    description: string,
    date: string,
    source: string,
    severity: string,
    components: seq<string>,
    sourceUrl: string)

  /**
   * What the upstream call produced: a status error raised by `raise_for_status()`,
   * any other failure (transport, undecodable JSON, a body that is not an object),
   * or a decoded body whose `results` key may be missing.
   */
  datatype FetchOutcome =
    | StatusError(status: int)
    | OtherError
    | Fetched(results: Option<seq<Recall>>)

  /** The response body `{"results": [...], "total": n}`. */
  datatype SearchResponse = SearchResponse(results: seq<FdaAlert>, total: int)

  /** The `HTTPException` raised to the client; only its status code is kept. */
  datatype HttpError = HttpError(status: int)

  const NoTitle := "No Title"
  const NoDescription := "No Description"
  const RecallsListingUrl := "https://www.fda.gov/safety/recalls-market-withdrawals-safety-alerts"
  const InternalServerError := 500

  /**
   * The alert dictionary built from one recall (the body of the handler's loop):
   * its title is a '.'-free piece no longer than the product description (or its
   * default), and it is always an FDA alert.
   */
  function ToAlert(recall: Recall): (a: FdaAlert)
    ensures '.' !in a.title && |a.title| <= |recall.productDescription.GetOr(NoTitle)|
    ensures a.source == "FDA"
  {
    FdaAlert(
      title := BeforeFirst(recall.productDescription.GetOr(NoTitle), '.'),
      description := recall.reasonForRecall.GetOr(NoDescription),
      date := recall.recallInitiationDate.GetOr(""),
      source := "FDA",
      severity := GetSeverity(recall.classification.GetOr("")),
      components := match recall.openfda
                    case None => []
                    case Some(o) => o.substanceName.GetOr([]),
      sourceUrl := RecallsListingUrl)
  }

  /**
   * What every alert carries: the title is the text of the product description
   * (default "No Title") up to its first '.', holds no '.', and is the whole
   * description when there is none; the other fields are passed through or take
   * their defaults; source and link are fixed.
   */
  lemma AlertOfRecall(recall: Recall)
    ensures var a := ToAlert(recall);
            var d := recall.productDescription.GetOr(NoTitle);
            && d[..|a.title|] == a.title
            && '.' !in a.title
            && (|a.title| < |d| ==> d[|a.title|] == '.')
            && ('.' !in d ==> a.title == d)
    ensures var a := ToAlert(recall);
            && (recall.productDescription.None? ==> a.title == NoTitle)
            && (recall.reasonForRecall.None? ==> a.description == NoDescription)
            && (recall.reasonForRecall.Some? ==> a.description == recall.reasonForRecall.value)
            && (recall.recallInitiationDate.None? ==> a.date == "")
            && (recall.recallInitiationDate.Some? ==> a.date == recall.recallInitiationDate.value)
            && ((recall.openfda.None? || recall.openfda.value.substanceName.None?) ==> a.components == [])
            && (recall.openfda.Some? && recall.openfda.value.substanceName.Some? ==>
                  a.components == recall.openfda.value.substanceName.value)
    ensures var a := ToAlert(recall);
            && a.source == "FDA"
            && a.sourceUrl == RecallsListingUrl
            && (a.severity == "low" || a.severity == "medium" || a.severity == "high")
            && a.severity == GetSeverity(recall.classification.GetOr(""))
            && (recall.classification.None? ==> a.severity == "low")
  {
  }

  /** The handler's loop: one alert per recall, appended in input order. */
  method MapRecalls(recalls: seq<Recall>) returns (alerts: seq<FdaAlert>)
    ensures |alerts| == |recalls|
    ensures forall i :: 0 <= i < |recalls| ==> alerts[i] == ToAlert(recalls[i])
  {
    alerts := [];
    for i := 0 to |recalls|
      invariant |alerts| == i
      invariant forall j :: 0 <= j < i ==> alerts[j] == ToAlert(recalls[j])
    {
      alerts := alerts + [ToAlert(recalls[i])];
    }
  }

  /**
   * `search_drugs(q)`: an empty query answers `{results: [], total: 0}` without a
   * request; a status error is passed on with the upstream status code; any
   * other failure becomes 500; a decoded body yields one alert per recall (none
   * when `results` is missing), in order, with `total` equal to their number.
   */
  method SearchDrugs(q: string, fetch: FetchOutcome) returns (r: Result<SearchResponse, HttpError>)
    ensures q == [] ==> r == Success(SearchResponse([], 0))
    ensures q != [] && fetch.StatusError? ==> r == Failure(HttpError(fetch.status))
    ensures q != [] && fetch.OtherError? ==> r == Failure(HttpError(InternalServerError))
    ensures q != [] && fetch.Fetched? ==>
              var recalls := fetch.results.GetOr([]);
              && r.Success?
              && |r.value.results| == |recalls|
              && r.value.total == |recalls|
              && forall i :: 0 <= i < |recalls| ==> r.value.results[i] == ToAlert(recalls[i])
  {
    if q == [] {
      return Success(SearchResponse([], 0));
    }
    match fetch
    case StatusError(status) =>
      r := Failure(HttpError(status));
    case OtherError =>
      r := Failure(HttpError(InternalServerError));
    case Fetched(results) =>
      var alerts := MapRecalls(results.GetOr([]));
      r := Success(SearchResponse(alerts, |alerts|));
  }

  /**
   * Every alert of a successful answer comes from the FDA, links to the fixed
   * listing page, has one of the three severities and a title without '.'.
   */
  lemma SearchResponseShape(recalls: seq<Recall>, alerts: seq<FdaAlert>)
    requires |alerts| == |recalls|
    requires forall i :: 0 <= i < |recalls| ==> alerts[i] == ToAlert(recalls[i])
    ensures forall a :: a in alerts ==>
              && a.source == "FDA"
              && a.sourceUrl == RecallsListingUrl
              && (a.severity == "low" || a.severity == "medium" || a.severity == "high")
              && '.' !in a.title
  {
  }

  /**
   * The title may be empty: a product description that is empty or starts with
   * '.' gives the empty title.
   */
  lemma TitleCanBeEmpty(recall: Recall)
    requires recall.productDescription.Some?
    requires recall.productDescription.value == [] || recall.productDescription.value[0] == '.'
    ensures ToAlert(recall).title == ""
  {
    AlertOfRecall(recall);
  }
}

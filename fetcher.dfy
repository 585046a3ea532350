/** The control flow of `fetch_eia_data`: one request per series, in
    dictionary order, storing each successful response's data list under
    the series name and giving up at the first unsuccessful status. The
    HTTP exchange itself is an input: `responses[i]` is what the request
    for `requests[i]` would receive. */
module Fetcher {
  import opened EnergyData

  /** The only status the script accepts. */
  const StatusOk := 200

  /** One entry of the series dictionary: a name and the series id the
      request URL is built from. */
  datatype SeriesRequest = SeriesRequest(name: string, seriesId: string)

  /** What one request yields: the status code and the record list found
      in the body's response envelope. */
  datatype Response = Response(status: int, data: seq<Record>)

  predicate UniqueRequestNames(requests: seq<SeriesRequest>)
  {
    forall a, b :: 0 <= a < b < |requests| ==> requests[a].name != requests[b].name
  }

  /** Returns the filled dictionary, or `None` when a request fails, and
      how many requests were issued. */
  method FetchEiaData(requests: seq<SeriesRequest>, responses: seq<Response>)
    returns (result: Option<seq<Series>>, issued: nat)
    requires |responses| == |requests|
    requires UniqueRequestNames(requests)
    ensures issued <= |requests|
    // fail-fast: any unsuccessful status and there is no dictionary at all
    ensures result.None? <==> exists i :: 0 <= i < |responses| && responses[i].status != StatusOk
    // the first unsuccessful request is the last one issued
    ensures result.None? ==>
              0 < issued && responses[issued - 1].status != StatusOk &&
              forall i :: 0 <= i < issued - 1 ==> responses[i].status == StatusOk
    // otherwise one entry per request, in request order, holding its data list
    ensures result.Some? ==>
              issued == |requests| && |result.value| == |requests| &&
              forall i :: 0 <= i < |requests| ==>
                result.value[i] == Series(requests[i].name, responses[i].data)
    ensures result.Some? ==> UniqueSeriesNames(result.value)
  {
    var allData: seq<Series> := [];
    var i := 0;
    while i < |requests|
      invariant 0 <= i <= |requests|
      invariant |allData| == i
      invariant forall k :: 0 <= k < i ==>
                  responses[k].status == StatusOk &&
                  allData[k] == Series(requests[k].name, responses[k].data)
    {
      var response := responses[i];
      if response.status == StatusOk {
        allData := allData + [Series(requests[i].name, response.data)];
      } else {
        return None, i + 1;
      }
      i := i + 1;
    }
    return Some(allData), |requests|;
  }
}

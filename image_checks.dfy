/** validation/proxy/api_server/image/utils.py: the checks an organic image
    response passes before it is returned to the client. */
module ImageChecks {
  import opened Wrappers
  import opened UtilityModels

  /** An HTTPException: status code and detail. */
  datatype HttpError = HttpError(statusCode: int, detail: Option<string>)

  const NsfwDetail := "NSFW content detected"

  /** _do_nsfw_checks: a response flagged NSFW raises the 403 exception; a
      missing response or a None/false flag passes. */
  function DoNsfwChecks(formattedResponse: Option<ImageResponseBody>): (r: Outcome<HttpError>)
    ensures r.Fail? <==> formattedResponse.Some? && formattedResponse.value.isNsfw == Some(true)
    ensures r.Fail? ==> r.error == HttpError(403, Some(NsfwDetail))
  {
    if formattedResponse.Some? && formattedResponse.value.isNsfw == Some(true) then
      Fail(HttpError(403, Some(NsfwDetail)))
    else Pass
  }

  /** do_formatted_response_image_checks: the NSFW check first, then a 500
      carrying the query's error message when there is no response or no image. */
  function DoFormattedResponseImageChecks(formattedResponse: Option<ImageResponseBody>, result: QueryResult): (r: Outcome<HttpError>)
    ensures formattedResponse.Some? && formattedResponse.value.isNsfw == Some(true) ==>
              r == Fail(HttpError(403, Some(NsfwDetail)))
    ensures !(formattedResponse.Some? && formattedResponse.value.isNsfw == Some(true)) ==>
              (r.Fail? <==> formattedResponse.None? || formattedResponse.value.imageB64.None?)
    ensures r.Fail? && r.error.statusCode == 500 ==> r.error.detail == result.errorMessage
    ensures r.Fail? ==> r.error.statusCode == 403 || r.error.statusCode == 500
  {
    match DoNsfwChecks(formattedResponse)
    case Fail(e) => Fail(e)
    case Pass =>
      if formattedResponse.None? || formattedResponse.value.imageB64.None? then
        Fail(HttpError(500, result.errorMessage))
      else Pass
  }

  /** The outcomes, case by case: NSFW wins over a missing image; a missing
      response or image is a 500; an image that is not flagged passes. */
  lemma ImageCheckCases(formattedResponse: Option<ImageResponseBody>, result: QueryResult)
    ensures formattedResponse.None? ==>
              DoFormattedResponseImageChecks(formattedResponse, result) == Fail(HttpError(500, result.errorMessage))
    ensures formattedResponse.Some? && formattedResponse.value.isNsfw == Some(true) && formattedResponse.value.imageB64.None? ==>
              DoFormattedResponseImageChecks(formattedResponse, result).error.statusCode == 403
    ensures formattedResponse.Some? && formattedResponse.value.imageB64.Some? && formattedResponse.value.isNsfw != Some(true) ==>
              DoFormattedResponseImageChecks(formattedResponse, result) == Pass
  {
  }
}

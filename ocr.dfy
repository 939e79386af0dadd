/**
 * The `ocr` function of src/ocr.rs:39-114 with its I/O turned into inputs:
 * the readable files, and the reply the network gives to the request. It
 * returns the request it would send (None when it sends none) and the
 * outcome.
 */
module Ocr {
  import opened Wrappers
  import opened OcrTypes
  import opened Form
  import opened Response

  const Endpoint: string := "https://api.ocr.space/parse/image"

  method Ocr(apiKey: string, source: ImageSource, fs: FileSystem, reply: Reply)
    returns (request: Option<Request>, outcome: Result<OcrResult, OcrError>)
    // A file that cannot be read fails the call before any request is sent.
    ensures request.None? <==> source.FilePath? && source.path !in fs
    ensures request.None? ==> outcome == Err(IoError)
    // Otherwise one POST to the endpoint, the key in its header, the form built from the source.
    ensures request.Some? ==>
      request.value.url == Endpoint && request.value.apiKey == apiKey &&
      IsRequestForm(request.value.form, source, fs)
    ensures request.Some? && reply.TransportFailed? ==> outcome == Err(TransportError)
    // A status other than 200 is an error whatever the body holds.
    ensures request.Some? && reply.Responded? && reply.status.code != 200 ==>
      outcome == Err(StatusError(reply.status))
    ensures request.Some? && reply.Responded? && reply.status.code == 200 && reply.body.Malformed? ==>
      outcome == Err(DecodeError)
    // A flagged response is an error with the service's messages; otherwise the texts, concatenated.
    ensures request.Some? && reply.Responded? && reply.status.code == 200 && reply.body.Parsed? ==>
      var response := reply.body.response;
      outcome == if response.isErrored == Some(true) then Err(Reported(ErrorText(response.errorMessage)))
                 else Ok(OcrResult(Concatenated(Texts(response.parsedResults))))
  {
    var form := BuildForm(source, fs);
    if form.Err? {
      return None, Err(form.error);
    }
    request := Some(Request(Endpoint, apiKey, form.value));
    match reply {
      case TransportFailed =>
        outcome := Err(TransportError);
      case Responded(status, body) =>
        var rejected := CheckStatus(status);
        if rejected.Some? {
          return request, Err(rejected.value);
        }
        match body {
          case Malformed =>
            outcome := Err(DecodeError);
          case Parsed(response) =>
            var flagged := CheckErrorFlag(response);
            if flagged.Some? {
              return request, Err(flagged.value);
            }
            var fullText := ConcatenateText(response.parsedResults);
            outcome := Ok(OcrResult(fullText));
        }
    }
  }
}

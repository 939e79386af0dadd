/**
 * The records of src/ocr.rs, and the inputs that stand in for the file
 * system and the HTTP exchange the `ocr` function performs.
 */
module OcrTypes {
  import opened Wrappers

  type Byte = b: int | 0 <= b < 256

  /** Where the image comes from: a local file, or a payload the caller already base64-encoded. */
  datatype ImageSource = FilePath(path: string) | Base64(payload: string)

  /** One entry of the service's `ParsedResults` array. */
  datatype ParsedResult = ParsedResult(parsedText: string)

  /** The deserialised response body: `ParsedResults`, `IsErroredOnProcessing`, `ErrorMessage`. */
  datatype OcrResponse = OcrResponse(
    parsedResults: seq<ParsedResult>,
    isErrored: Option<bool>,
    errorMessage: Option<seq<string>>)

  /** The value `ocr` returns on success. */
  datatype OcrResult = OcrResult(text: string)

  /** An HTTP status code as the http crate holds it: a number from 100 to 999. */
  type Code = c: int | 100 <= c <= 999 witness 200

  /**
   * A response status. `canonicalReason` is the reason phrase the http crate's
   * table gives for `code` (such as "Not Found"), or None for a code outside it.
   */
  datatype Status = Status(code: Code, canonicalReason: Option<string>)

  /** One part of a multipart form: a text field, or a file part with its bytes and file name. */
  datatype FormPart =
    | Text(name: string, value: string)
    | File(name: string, bytes: seq<Byte>, fileName: string)

  type Form = seq<FormPart>

  /** The POST request `ocr` sends: the endpoint, the `apikey` header and the multipart body. */
  datatype Request = Request(url: string, apiKey: string, form: Form)

  /**
   * The files the process can read: a path that is absent stands for any
   * failure of `std::fs::read` (missing file, no permission, ...).
   */
  type FileSystem = map<string, seq<Byte>>

  /** What the service's response body turns out to be once `res.json()` has read it. */
  datatype Body = Malformed | Parsed(response: OcrResponse)

  /** What the network gives back for the request: a transport failure or a response. */
  datatype Reply = TransportFailed | Responded(status: Status, body: Body)

  /**
   * The ways `ocr` can fail, one per `?` or `return Err` in the source:
   * the file read, the send, a status other than 200, a body serde rejects,
   * and an error the service reports.
   */
  datatype OcrError =
    | IoError
    | TransportError
    | StatusError(status: Status)
    | DecodeError
    | Reported(message: string)
}

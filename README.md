# OCR request builder and response normaliser

This project models the core of the `ocr` function in `src/ocr.rs` of a small Rust program. The function sends one image to the OCR.space text-extraction service and returns the text the service found. The model covers every decision the function makes:

- It builds the multipart form from an `ImageSource`. The form always has `language=por`. A `FilePath` source adds one `file` part holding the file's bytes under the path's file name, or `image.png` when the path has none. A `Base64` source adds one `base64Image` text field behind the prefix `data:image/jpeg;base64,`.
- It rejects every HTTP status other than 200 before the body is read.
- It turns the service's `IsErroredOnProcessing` flag into an error. The message is the `ErrorMessage` list joined with `", "`, or `Unknown OCR processing error` when the list is absent.
- It concatenates the `ParsedText` segments in order. A `"\n"` goes before a segment only once the text built so far is non-empty.
- It splits the elapsed whole seconds into minutes and seconds.

I/O becomes input. The readable files are a map from path to bytes, and a path missing from the map stands for a failed `std::fs::read`. The network's answer to the request is a `Reply`: a transport failure, or a status together with a body that is either malformed or already deserialised. `Ocr.Ocr` returns the request it would send, or `None` when it sends nothing, together with the outcome.

Modules: `Wrappers` (Option, Result), `OcrTypes` (the records and the inputs), `Strings` (join and the newline split that undoes it), `Form` (src/ocr.rs:46-68), `Response` (src/ocr.rs:77-105) and `Ocr` (the whole function).

Leading empty segments are the one place where the concatenation differs from a plain newline join. `["", "a"]` gives `"a"`, not `"\na"`. Empty segments after the first non-empty one are not skipped, so `["a", "", "b"]` gives `"a\n\nb"`. The model follows the code here, and `Response.ConcatenatedSkipsLeadingEmpty` and `Response.ConcatenatedFromNonEmptyHead` state both cases.

## Model

| member | source | states |
|---|---|---|
| Form.FileName | src/ocr.rs:53-55 | a file name, when there is one, is a single non-empty component other than `.` and `..` |
| Form.FileNameOfNoComponent | src/ocr.rs:53-55 | the empty path, the root `/`, a lone `.` and a lone `..` have no file name |
| Form.FileNameOfName | src/ocr.rs:53-55 | a normal name on its own is its own file name |
| Form.FileNameTrailingSlash | src/ocr.rs:53-55 | a trailing `/` does not change the file name |
| Form.FileNameTrailingDot | src/ocr.rs:53-55 | a trailing `/.` does not change the file name |
| Form.FileNameOfParent | src/ocr.rs:53-55 | a path ending in `/..` has no file name |
| Form.FileNameOfChild | src/ocr.rs:53-55 | a path ending in `/name` has `name` as its file name; with the lemmas above this settles every path |
| Form.FileNameExampleDirectory | src/ocr.rs:53-55 | `/usr/bin/` has the file name `bin` |
| Form.FileNameExampleCurrentDir | src/ocr.rs:53-55 | `foo.txt/.` has the file name `foo.txt` |
| Form.FileNameExampleParentDir | src/ocr.rs:53-55 | `foo.txt/..` has no file name |
| Form.UploadName | src/ocr.rs:53-56 | the upload name is never empty and has no `/`; it is the path's own file name, or `image.png` when the path has none |
| Form.UploadNameOfChild | src/ocr.rs:53-56 | a path `dir/name` uploads under `name` |
| Form.UploadNameOfNoComponent | src/ocr.rs:53-56 | `""`, `/`, `.` and any path ending in `/..` upload as `image.png` |
| Form.DataUri | src/ocr.rs:65 | the field value is `data:image/jpeg;base64,` followed by the unchanged payload |
| Form.DataUriInjective | src/ocr.rs:65 | distinct payloads give distinct field values |
| Form.BuildForm | src/ocr.rs:46-68 | an unreadable file fails with IoError and nothing else fails; a form is `language=por` plus exactly one image part: `file` with the file's bytes and upload name, or `base64Image` with the data URI |
| Response.CodeDigits | src/ocr.rs:79 | a status code prints as three decimal digits, the first not `0`, that denote the code |
| Response.StatusMessage | src/ocr.rs:79 | the rejection text is `API request failed with status: `, then the code's three decimal digits (the first not `0`, their value the code), then a space and the reason phrase, or `<unknown status code>` without one |
| Response.Message | src/ocr.rs:79-90 | the errors `ocr` builds itself have a text: a status rejection has the status message, a reported error has the service's message; the other errors have none of their own |
| Response.CheckStatus | src/ocr.rs:77-80 | a status passes exactly when it is 200; any other status is a StatusError carrying it |
| Response.CheckErrorFlag | src/ocr.rs:84-91 | the response is an error exactly when `IsErroredOnProcessing` is `Some(true)`, and the error carries the joined messages |
| Response.ErrorText | src/ocr.rs:86-89 | an absent list gives `Unknown OCR processing error`; an empty list gives the empty text; one message is the text unchanged; with more, the first message is followed by `, ` and the join of the rest |
| Response.ErrorTextAppend | src/ocr.rs:86-89 | each further message adds `, ` and that message to the error text |
| Strings.JoinSnoc | src/ocr.rs:89 | joining one more part appends exactly one separator and that part |
| Strings.LinesOfJoin | src/ocr.rs:97-100 | splitting on newlines gives back newline-free parts joined with `"\n"` |
| Response.ConcatenatedIsEmpty | src/ocr.rs:94-101 | the text is empty exactly when every segment is empty, including when there are no segments |
| Response.ConcatenatedSnoc | src/ocr.rs:97-100 | one loop step: a segment is appended after `"\n"` when the text so far is non-empty, and directly otherwise |
| Response.ConcatenatedFromNonEmptyHead | src/ocr.rs:94-101 | from a non-empty first segment on, the text is the newline join, so later empty segments each still get one `"\n"` |
| Response.ConcatenatedDropsLeadingEmpty | src/ocr.rs:94-101 | for every list of segments, a leading empty segment adds nothing to the text, not even a separator |
| Response.ConcatenatedSkipsLeadingEmpty | src/ocr.rs:94-101 | a leading empty segment adds no separator: `["", "a"]` gives `"a"` where a plain join gives `"\na"` |
| Response.ConcatenatedLines | src/ocr.rs:94-101 | for newline-free segments, splitting the text on newlines gives the segments from the first non-empty one in their original order |
| Response.ConcatenateText | src/ocr.rs:94-101 | the loop builds exactly the newline join of the segments from the first non-empty one |
| Response.SplitElapsed | src/ocr.rs:104-105 | `minutes * 60 + seconds` is the total and `seconds < 60` |
| Response.SplitElapsedUnique | src/ocr.rs:104-105 | that is the only minutes/seconds pair with these two properties |
| Ocr.Ocr | src/ocr.rs:39-114 | an unreadable file is an IoError and no request is sent; otherwise one request goes to the endpoint with the key and the built form, and the outcome is checked in this order: transport failure, then a status other than 200 (the body is never looked at), then a malformed body, then the error flag, then the concatenated texts |

## Left out

- The HTTP transport (`reqwest::Client`, `post`, the `apikey` header, `send().await`) is not modelled. The request is returned as a value and the reply is an input.
- JSON deserialisation by serde is not modelled. The body is an input that is either malformed or an already-built `OcrResponse`.
- File reads are not modelled. A map from path to bytes stands in for `std::fs::read`, and any read failure is a path missing from the map.
- Response.StatusMessage: the reason phrase comes from the http crate's table, which is not part of this model, so it is an input field of `Status`. The `<unknown status code>` text stands in when that field is absent.
- Form.FileName: follows Unix path rules only, and the contract states the result's shape; which name it is, or that there is none, is stated case by case in the lemmas that follow it. Windows prefixes and the lossy UTF-8 conversion of `to_string_lossy` are left out, because strings here are sequences of characters.
- The wall-clock timing with `Instant`, the milliseconds and every `println!` are left out. They only print diagnostics. Only the minutes/seconds split of whole seconds is kept.
- The `Display` implementation of `OcrResult` is left out. It only writes the text.
- The `error_message` list being present but empty gives an empty error text. The model keeps that behaviour as written.
- src/main.rs and src/images.rs are not part of this model. They are thin wrappers over the OpenAI client and the base64 library, with no branching logic of their own.

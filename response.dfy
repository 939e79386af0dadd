/**
 * Turning the service's answer into the outcome of `ocr`: the status gate,
 * the error flag, the concatenation of the parsed texts (src/ocr.rs:77-101)
 * and the minutes/seconds split of the elapsed time (src/ocr.rs:103-105).
 */
module Response {
  import opened Wrappers
  import opened OcrTypes
  import opened Strings

  const StatusPrefix: string := "API request failed with status: "
  const UnknownStatus: string := "<unknown status code>"
  const UnknownError: string := "Unknown OCR processing error"

  // ---------------------------------------------------------------------------
  // Status gate

  function DigitValue(c: char): int
  {
    (c as int) - ('0' as int)
  }

  /** The number a string of decimal digits denotes. */
  function DecimalValue(s: string): int
  {
    if s == [] then 0 else DecimalValue(s[..|s| - 1]) * 10 + DigitValue(s[|s| - 1])
  }

  /** The decimal digits of a status code, as `{}` prints a u16 from 100 to 999. */
  function CodeDigits(code: Code): (s: string)
    ensures |s| == 3 && s[0] != '0'
    ensures forall i :: 0 <= i < 3 ==> '0' <= s[i] <= '9'
    ensures DecimalValue(s) == code
  {
    var h, t, u := code / 100, code / 10 % 10, code % 10;
    var s := [(h + '0' as int) as char, (t + '0' as int) as char, (u + '0' as int) as char];
    assert DecimalValue(s[..1]) == h by {
      assert s[..1][..0] == [];
    }
    assert DecimalValue(s[..2]) == h * 10 + t by {
      assert s[..2][..1] == s[..1];
    }
    assert h * 100 + t * 10 + u == code;
    s
  }

  /**
   * The error text for a rejected status: the prefix, then the status as the
   * http crate displays it, its code and its reason phrase.
   */
  function StatusMessage(status: Status): (m: string)
    ensures |m| > |StatusPrefix| + 3 && m[..|StatusPrefix|] == StatusPrefix
    ensures DecimalValue(m[|StatusPrefix|..|StatusPrefix| + 3]) == status.code
    ensures m[|StatusPrefix|..|StatusPrefix| + 3] == CodeDigits(status.code)
    ensures m[|StatusPrefix| + 3..] == " " + status.canonicalReason.UnwrapOr(UnknownStatus)
  {
    var m := StatusPrefix + CodeDigits(status.code) + " " + status.canonicalReason.UnwrapOr(UnknownStatus);
    assert m[|StatusPrefix|..|StatusPrefix| + 3] == CodeDigits(status.code);
    assert m[|StatusPrefix| + 3..] == " " + status.canonicalReason.UnwrapOr(UnknownStatus);
    m
  }

  /**
   * The text of the errors `ocr` builds itself: the status rejection and the
   * reported error. The other errors carry the text of the library that
   * raised them, which is not part of this model.
   */
  function Message(e: OcrError): (r: Option<string>)
    ensures r.Some? <==> e.StatusError? || e.Reported?
    ensures e.Reported? ==> r == Some(e.message)
    ensures e.StatusError? ==> r == Some(StatusMessage(e.status))
  {
    match e
    case StatusError(status) => Some(StatusMessage(status))
    case Reported(message) => Some(message)
    case _ => None
  }

  /** Only status 200 gets past the gate; every other status is an error carrying it. */
  function CheckStatus(status: Status): (r: Option<OcrError>)
    ensures r.None? <==> status.code == 200
    ensures r.Some? ==> r.value == StatusError(status)
  {
    if status.code != 200 then Some(StatusError(status)) else None
  }

  // ---------------------------------------------------------------------------
  // Error flag

  /** The message of a reported error: the service's messages joined by ", ", or a fixed text without them. */
  function ErrorText(messages: Option<seq<string>>): (text: string)
    ensures messages.None? ==> text == UnknownError
    ensures messages == Some([]) ==> text == ""
    ensures messages.Some? && |messages.value| == 1 ==> text == messages.value[0]
    ensures messages.Some? && |messages.value| > 1 ==>
      text == messages.value[0] + ", " + Join(messages.value[1..], ", ")
  {
    Join(messages.UnwrapOr([UnknownError]), ", ")
  }

  /**
   * `IsErroredOnProcessing` set to true makes the outcome an error; absent or
   * false lets text extraction go on.
   */
  function CheckErrorFlag(response: OcrResponse): (r: Option<OcrError>)
    ensures r.Some? <==> response.isErrored == Some(true)
    ensures r.Some? ==> r.value == Reported(ErrorText(response.errorMessage))
  {
    if response.isErrored == Some(true) then Some(Reported(ErrorText(response.errorMessage))) else None
  }

  /** One more message adds ", " and that message to the error text. */
  lemma ErrorTextAppend(messages: seq<string>, m: string)
    requires |messages| > 0
    ensures ErrorText(Some(messages + [m])) == ErrorText(Some(messages)) + ", " + m
  {
    JoinSnoc(messages, m, ", ");
  }

  // ---------------------------------------------------------------------------
  // Text concatenation

  /** The `ParsedText` of each result, in order. */
  function Texts(results: seq<ParsedResult>): (texts: seq<string>)
    ensures |texts| == |results|
  {
    seq(|results|, i requires 0 <= i < |results| => results[i].parsedText)
  }

  /** The texts from the first non-empty one on. */
  function DropLeadingEmpty(texts: seq<string>): (r: seq<string>)
    ensures r == [] || r[0] != ""
  {
    if |texts| > 0 && texts[0] == "" then DropLeadingEmpty(texts[1..]) else texts
  }

  /**
   * What the loop at src/ocr.rs:94-101 builds: the texts joined with "\n",
   * starting at the first non-empty one.
   */
  function Concatenated(texts: seq<string>): string
  {
    Join(DropLeadingEmpty(texts), "\n")
  }

  /** Every segment that is kept is one of the original segments. */
  lemma {:induction false} DropLeadingEmptyKeeps(texts: seq<string>)
    ensures forall i :: 0 <= i < |DropLeadingEmpty(texts)| ==> DropLeadingEmpty(texts)[i] in texts
  {
    if |texts| > 0 && texts[0] == "" {
      DropLeadingEmptyKeeps(texts[1..]);
    }
  }

  lemma {:induction false} DropLeadingEmptyIsEmpty(texts: seq<string>)
    ensures DropLeadingEmpty(texts) == [] <==> forall i :: 0 <= i < |texts| ==> texts[i] == ""
  {
    if |texts| > 0 && texts[0] == "" {
      DropLeadingEmptyIsEmpty(texts[1..]);
      assert forall i :: 1 <= i < |texts| ==> texts[i] == texts[1..][i - 1];
    }
  }

  lemma {:induction false} DropLeadingEmptySnoc(texts: seq<string>, t: string)
    ensures DropLeadingEmpty(texts + [t]) ==
      if DropLeadingEmpty(texts) == [] then DropLeadingEmpty([t]) else DropLeadingEmpty(texts) + [t]
  {
    if |texts| > 0 && texts[0] == "" {
      assert (texts + [t])[1..] == texts[1..] + [t];
      DropLeadingEmptySnoc(texts[1..], t);
    }
  }

  /** The text is empty exactly when every segment is: no segment, or only empty ones. */
  lemma ConcatenatedIsEmpty(texts: seq<string>)
    ensures Concatenated(texts) == "" <==> forall i :: 0 <= i < |texts| ==> texts[i] == ""
  {
    DropLeadingEmptyIsEmpty(texts);
    var d := DropLeadingEmpty(texts);
    if d != [] {
      JoinStartsWithHead(d, "\n");
    }
  }

  /**
   * One loop step: a segment is appended after a "\n" once the text built so
   * far is non-empty, and without one before that.
   */
  lemma ConcatenatedSnoc(texts: seq<string>, t: string)
    ensures Concatenated(texts + [t]) ==
      if Concatenated(texts) == "" then t else Concatenated(texts) + "\n" + t
  {
    DropLeadingEmptySnoc(texts, t);
    ConcatenatedIsEmpty(texts);
    DropLeadingEmptyIsEmpty(texts);
    var d := DropLeadingEmpty(texts);
    if d != [] {
      JoinSnoc(d, t, "\n");
    }
  }

  /** Once the first segment is non-empty, every later segment, even an empty one, follows exactly one "\n". */
  lemma ConcatenatedFromNonEmptyHead(texts: seq<string>)
    requires |texts| > 0 && texts[0] != ""
    ensures Concatenated(texts) == Join(texts, "\n")
  {
  }

  /** A leading empty segment adds nothing, not even a separator. */
  lemma ConcatenatedDropsLeadingEmpty(texts: seq<string>)
    ensures Concatenated([""] + texts) == Concatenated(texts)
  {
    assert ([""] + texts)[1..] == texts;
  }

  /** Leading empty segments add no separator, unlike a plain join. */
  lemma ConcatenatedSkipsLeadingEmpty()
    ensures Concatenated(["", "a"]) == "a"
    ensures Join(["", "a"], "\n") == "\na"
  {
    assert DropLeadingEmpty(["", "a"]) == ["a"] by {
      assert ["", "a"][1..] == ["a"];
    }
    assert ["", "a"][1..] == ["a"];
  }

  /**
   * Splitting the text on newlines gives back the segments from the first
   * non-empty one, in their order: nothing is reordered, dropped or merged.
   */
  lemma ConcatenatedLines(texts: seq<string>)
    requires forall i :: 0 <= i < |texts| ==> '\n' !in texts[i]
    ensures Lines(Concatenated(texts)) == if DropLeadingEmpty(texts) == [] then [""] else DropLeadingEmpty(texts)
  {
    var d := DropLeadingEmpty(texts);
    if d != [] {
      DropLeadingEmptyKeeps(texts);
      LinesOfJoin(d);
    }
  }

  /** The loop of src/ocr.rs:94-101, which grows `fullText` segment by segment. */
  method ConcatenateText(results: seq<ParsedResult>) returns (fullText: string)
    ensures fullText == Concatenated(Texts(results))
  {
    fullText := "";
    for i := 0 to |results|
      invariant fullText == Concatenated(Texts(results[..i]))
    {
      var text := results[i].parsedText;
      assert Texts(results[..i + 1]) == Texts(results[..i]) + [text];
      ConcatenatedSnoc(Texts(results[..i]), text);
      if fullText != "" {
        fullText := fullText + "\n";
      }
      fullText := fullText + text;
    }
    assert results[..|results|] == results;
  }

  // ---------------------------------------------------------------------------
  // Elapsed time

  datatype Elapsed = Elapsed(minutes: nat, seconds: nat)

  /** Whole elapsed seconds as minutes and the seconds left over (src/ocr.rs:104-105). */
  function SplitElapsed(totalSecs: nat): (r: Elapsed)
    ensures r.minutes * 60 + r.seconds == totalSecs
    ensures r.seconds < 60
  {
    Elapsed(totalSecs / 60, totalSecs % 60)
  }

  /** The split is the only minutes/seconds pair that adds up with seconds below 60. */
  lemma SplitElapsedUnique(totalSecs: nat, minutes: nat, seconds: nat)
    requires minutes * 60 + seconds == totalSecs && seconds < 60
    ensures SplitElapsed(totalSecs) == Elapsed(minutes, seconds)
  {
    var r := SplitElapsed(totalSecs);
    var d := minutes - r.minutes;
    assert d * 60 == r.seconds - seconds;
    assert d == 0;
  }
}

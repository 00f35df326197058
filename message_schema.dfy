/**
  The zod schema for a message form (src/schemas/messageSchema.ts): an
  object whose `content` is a string of at least 10 characters. Its upper
  bound is written `.max(10)` while its error text speaks of 300.
  Lengths count Unicode code points, one per `char` here; zod counts
  UTF-16 code units, which differ only outside the Basic Multilingual Plane.
*/
module MessageSchema {
  import opened Wrappers

  /** The `content` property of the parsed object. */
  datatype ContentField = Absent | Text(s: string) | NotText(received: string)

  const MinContent := 10
  /** The bound as written in the schema. */
  const MaxContentAsWritten := 10
  /** The bound the schema's own error text names. */
  const MaxContentIntended := 300

  const TooShort := "Content must be at least 10 characters long"
  const TooLong := "Content must be maximum 300 characters long"

  /** `z.string().min(10, ...).max(max, ...)` on `content`: zod reports a
      missing field as "Required", any other type by what it received, and
      otherwise every failing length check, in order. */
  function CheckContent(content: ContentField, max: nat): Result<string> {
    match content
    case Absent => Invalid(["Required"])
    case NotText(received) => Invalid(["Expected string, received " + received])
    case Text(s) =>
      var issues := (if |s| < MinContent then [TooShort] else [])
                    + (if |s| > max then [TooLong] else []);
      if issues == [] then Ok(s) else Invalid(issues)
  }

  /** The schema as the repository writes it. */
  function ParseAsWritten(content: ContentField): Result<string> {
    CheckContent(content, MaxContentAsWritten)
  }

  /** The schema with the bound its error text names. */
  function Parse(content: ContentField): Result<string> {
    CheckContent(content, MaxContentIntended)
  }

  /** As written, content passes exactly when it is a string of exactly ten
      characters; shorter content gets the minimum's message and longer
      content the maximum's. */
  lemma AsWrittenAcceptsOnlyTen(content: ContentField)
    ensures ParseAsWritten(content).Ok? <==> content.Text? && |content.s| == 10
    ensures ParseAsWritten(content).Ok? ==> ParseAsWritten(content).value == content.s
    ensures content.Text? && |content.s| < 10 ==> ParseAsWritten(content) == Invalid([TooShort])
    ensures content.Text? && |content.s| > 10 ==> ParseAsWritten(content) == Invalid([TooLong])
    ensures !content.Text? ==> ParseAsWritten(content).Invalid?
  {
  }

  /** An eleven-character message is refused with a text that promises a
      300-character maximum. */
  lemma AsWrittenRefusesEleven()
    ensures ParseAsWritten(Text("Hello there")) == Invalid(["Content must be maximum 300 characters long"])
  {
    assert |"Hello there"| == 11;
  }

  /** With the bound its text names, the schema accepts every string of 10
      to 300 characters and nothing else. */
  lemma AcceptsTenToThreeHundred(content: ContentField)
    ensures Parse(content).Ok? <==> content.Text? && 10 <= |content.s| <= 300
    ensures Parse(content).Ok? ==> Parse(content).value == content.s
    ensures content.Text? && |content.s| > 300 ==> Parse(content) == Invalid([TooLong])
    ensures Parse(Text("Hello there")) == Ok("Hello there")
  {
    assert |"Hello there"| == 11;
  }
}

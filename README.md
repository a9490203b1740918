# Timeline generator: reply extraction and wire conversion

This project models the two conversions in the timeline generator service:

- **The LLM reply path** (`internal/openai/client.go`). `extractJSON` cuts the
  span from the first `{` to the last `}` out of the chat model's free-text
  reply. `GenerateTimeline` passes that span to `json.Unmarshal` and copies the
  decoded struct field by field into a GraphQL `model.Timeline`. The chat call
  and the decoder are parameters. Decoding either yields the decoded struct or
  fails with an error text.
- **The resolver helper** (`graph/resolver/helpers.go`).
  `convertTimelineToGraphQL` maps a stored `models.Timeline` to its GraphQL
  form. It copies identity and text fields and renders each `time.Time` with
  the Go layout `"2006-01-02"`. A `time.Time` is modelled as a calendar date
  plus a time-of-day part that the code never reads.

Modules:

- `Wrappers`: a `Result` type standing for Go's `(value, error)` returns.
- `GoTime` (`go_time.dfy`): the date, `time.Time` and the `Format` behaviour
  for that layout. Numeric fields follow Go's `appendInt`: a sign for negative
  numbers, zero-padding to the field width, and no truncation of wider numbers.
- `Models` and `GraphModel`: the internal and wire records, as datatypes.
- `OpenAIClient` and `Resolver`: the two core files.

Both loops of the source, which fill a preallocated task slice, are methods
that fill an `array` under a loop invariant. Each is proved equal to a
reference function. The lemmas then state the properties of those functions.

`extractJSON` takes the plain textual span from the first `{` to the last `}`
and does not count brace depth. `OpenAIClient.ExtractJSONTwoObjects` shows that
a reply holding two objects yields one span covering both.

## Model

| member | source | states |
|---|---|---|
| `OpenAIClient.Index` | internal/openai/client.go:133 | `strings.Index` for `{`: the position of the first occurrence, or -1 exactly when there is none |
| `OpenAIClient.LastIndex` | internal/openai/client.go:134 | `strings.LastIndex` for `}`: the position of the last occurrence, or -1 exactly when there is none |
| `OpenAIClient.ExtractJSON` | internal/openai/client.go:131-140 | if a `{` precedes a `}`, the result is at least two characters, starting with `{` and ending with `}`; otherwise the reply is returned unchanged |
| `OpenAIClient.ExtractConditionIff` | internal/openai/client.go:136 | the guard `start >= 0 && end >= 0 && end > start` holds exactly when a `{` occurs before a `}` |
| `OpenAIClient.ExtractJSONSpan` | internal/openai/client.go:133-137 | when `i` is the first `{`, `j` the last `}`, and `i < j`, the result is exactly `content[i..j+1]` |
| `OpenAIClient.ExtractJSONOutermost` | internal/openai/client.go:133-137 | whenever extraction happens, the result is the outermost span: no `{` before it and no `}` after it |
| `OpenAIClient.ExtractJSONSubstring` | internal/openai/client.go:136-139 | the result is always a contiguous substring of the reply, so never longer than the reply |
| `OpenAIClient.ExtractJSONUnchangedIff` | internal/openai/client.go:136-139 | the reply comes back unchanged exactly when it has no `{`-before-`}` pair or already starts with `{` and ends with `}` |
| `OpenAIClient.ExtractJSONIdempotent` | internal/openai/client.go:131-140 | applying the extraction to its own output changes nothing |
| `OpenAIClient.ExtractJSONTwoObjects` | internal/openai/client.go:133-137 | for any text that starts with an object `a`, ends with an object `b` and has any text `t` between them, the whole of `a + t + b` comes back as one span; there is no brace-depth counting |
| `OpenAIClient.GenerateError.Message` | internal/openai/client.go:80-104 | the `fmt.Errorf` text of an error is a kind-specific prefix followed by the cause's error text (`%v`, not `%w`), which it ends with unchanged |
| `OpenAIClient.MessageNamesKind` | internal/openai/client.go:79-105 | an API error message never equals a parse error message, so the two failure kinds can be told apart |
| `OpenAIClient.TimelineFromDecodedCopies` | internal/openai/client.go:107-125 | the copy keeps the task count, the order and every decoded field (Title, Description, StartDate, EndDate, Duration, Priority); dates stay the decoded strings; every `ID` is empty |
| `OpenAIClient.TimelineFromDecodedLossless` | internal/openai/client.go:107-125 | dropping the wire `ID`s from the copy gives back exactly the decoded struct, so nothing decoded is lost |
| `OpenAIClient.TimelineFromDecodedImage` | internal/openai/client.go:108-124 | a wire timeline is the copy of some decoded struct exactly when its own `ID` and every task `ID` are empty |
| `OpenAIClient.GenerateTimeline` | internal/openai/client.go:79-127 | a chat error gives an API error and no timeline; otherwise the first choice goes through `ExtractJSON` to the decoder; a decode error gives a parse error and no timeline; success gives the field-for-field copy of what was decoded |
| `GoTime.AppendInt` | graph/resolver/helpers.go:16-17 | a numeric field of the layout is at least `width` characters, starts with `-` exactly for a negative number, and is all digits after that sign |
| `GoTime.AppendIntInjective` | graph/resolver/helpers.go:16-17 | two numbers give the same field iff they are equal: sign and digit value determine the number |
| `GoTime.FormatDate` | graph/resolver/helpers.go:27-28 | `Format("2006-01-02")` is never shorter than ten characters, whatever the date |
| `GoTime.AppendIntLength` | graph/resolver/helpers.go:16-17 | a numeric date field is exactly `width` characters long iff the number is non-negative and below 10^width |
| `GoTime.AppendIntPadded` | graph/resolver/helpers.go:16-17 | for 0 <= x < 10^width the field is `width` zero-padded digits that read back as `x` |
| `GoTime.FormatDateLength` | graph/resolver/helpers.go:27-28 | a formatted valid date has length 10 iff its year is between 0 and 9999 |
| `GoTime.FormatDateShape` | graph/resolver/helpers.go:16-17 | for years 0-9999 the rendered date is `YYYY-MM-DD`: digits with `-` at positions 4 and 7; the year, month and day fields read back as the date's own |
| `GoTime.FormatDateInjective` | graph/resolver/helpers.go:27-28 | for valid dates of any year, two times render equally iff their calendar dates are equal, whatever their time of day |
| `Resolver.ConvertTimelineToGraphQL` | graph/resolver/helpers.go:9-31 | the filled task slice and the built timeline equal the reference conversion `TimelineToGraphQL` |
| `Resolver.TimelineToGraphQLCopies` | graph/resolver/helpers.go:10-30 | same task count and order; each task keeps ID, Title, Description, Duration and Priority and renders both dates; the timeline keeps ID, Title and Description and renders both dates |
| `Resolver.TimelineToGraphQLDates` | graph/resolver/helpers.go:16-28 | with valid dates and years 0-9999, every date string of the result, in the timeline and in every task, has the ten-character `YYYY-MM-DD` form |
| `Resolver.TaskToGraphQLKeeps` | graph/resolver/helpers.go:12-20 | tasks that differ only in TimelineID, Completed, CreatedAt, UpdatedAt or time of day convert to the same wire task; for valid dates, equal wire tasks imply agreement on all kept fields |
| `Resolver.TimelineToGraphQLKeeps` | graph/resolver/helpers.go:23-30 | timelines that differ only in GoalID, timestamps, time of day or dropped task fields convert alike; for valid dates the converse holds too |

## Left out

- The chat-completion call (internal/openai/client.go:61-77) is network I/O into a foreign library. This covers its model name, the system message and the floating-point temperature. Its outcome is the `chat` parameter of `GenerateTimeline`.
- Indexing `resp.Choices[0]` panics in Go when the reply has no choices. This is stated as a precondition of `GenerateTimeline`, not modelled as behaviour.
- `json.Unmarshal` is a library call. It is the `decode` parameter and may return any struct or any error. Go's handling of missing or ill-typed JSON fields is therefore not modelled.
- Rendering the prompt with `fmt.Sprintf` (internal/openai/client.go:24-59) is library formatting. The `input` argument of `GenerateTimeline` feeds only the prompt, so it is not a parameter of the model. `TargetDate` is a `*string` printed with `%s`, so Go would not print the date itself there.
- In Go, the timeline struct is built before the loop, and the loop then fills the slice it shares. The model builds the timeline after the loop from the filled array. The result is the same, because nothing reads the timeline in between.
- `OpenAIClient.Index`, `OpenAIClient.LastIndex`: Go strings are UTF-8 bytes and `strings.Index`/`strings.LastIndex` return byte offsets, while the model counts characters. The offsets differ on non-ASCII replies, but they locate the same `{` and `}`, and only the extracted slice is observable.
- The Go tasks are a slice of pointers. Every pointer refers to a struct built on the spot that is never shared, so the model uses values and has no aliasing.
- Passing a nil `*models.Timeline` to `convertTimelineToGraphQL` would panic. A datatype value cannot be nil, so this case is not modelled.
- Time zones inside `time.Time.Format` are not modelled. The calendar date is taken as already given.
- `Date.Valid` only bounds the day to 1-31. It does not encode month lengths or leap years, which is weaker than what a normalised `time.Time` guarantees. The date properties need only the weaker bound.
- The repositories (internal/repository/*.go) are database I/O with random UUIDs and the current time. This includes the task ordering, which comes from SQL `ORDER BY`.
- The seed command, the HTTP server and the database setup (cmd/seed/main.go, cmd/server/main.go, internal/database/db.go) are process and I/O plumbing.
- `User`, `Goal` and both `TimelineInput` records have no behaviour in the core, so they have no datatype here.
- Go's `int` for `Priority` is copied and never computed with, so a 64-bit bound does not matter and `int` is unbounded here.

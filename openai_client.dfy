/**
 * The reply-handling half of internal/openai/client.go: cutting the JSON object
 * out of the model's free-text reply (`extractJSON`) and copying the decoded
 * fields into the GraphQL timeline (`GenerateTimeline`).
 *
 * The chat-completion call is not made here: its outcome is a parameter. So is
 * `json.Unmarshal`, as a decoder that yields the decoded struct or an error text.
 * Go strings are UTF-8 byte strings and `strings.Index` returns byte offsets,
 * while `Index` here counts characters. Since `{` and `}` are single ASCII bytes
 * that never occur inside a multi-byte sequence, both find the same characters,
 * so `ExtractJSON` cuts out the same slice.
 */
module OpenAIClient {
  import opened Wrappers
  import GraphModel

  // ---------------------------------------------------------------------------
  // strings.Index and strings.LastIndex for a one-character needle

  /** Position of the first `c` in `s`, or -1 when there is none. */
  function Index(s: string, c: char): (r: int)
    ensures -1 <= r < |s|
    ensures r >= 0 ==> s[r] == c && forall j :: 0 <= j < r ==> s[j] != c
    ensures r == -1 ==> forall j :: 0 <= j < |s| ==> s[j] != c
  {
    if s == [] then -1
    else if s[0] == c then 0
    else
      var k := Index(s[1..], c);
      assert forall j :: 1 <= j < |s| ==> s[j] == s[1..][j - 1];
      if k < 0 then -1 else k + 1
  }

  /** Position of the last `c` in `s`, or -1 when there is none. */
  function LastIndex(s: string, c: char): (r: int)
    ensures -1 <= r < |s|
    ensures r >= 0 ==> s[r] == c && forall j :: r < j < |s| ==> s[j] != c
    ensures r == -1 ==> forall j :: 0 <= j < |s| ==> s[j] != c
  {
    if s == [] then -1
    else if s[|s| - 1] == c then |s| - 1
    else LastIndex(s[..|s| - 1], c)
  }

  // ---------------------------------------------------------------------------
  // extractJSON

  /** Some `{` occurs before some `}`. */
  predicate HasBracePair(s: string) {
    exists i, j :: 0 <= i < j < |s| && s[i] == '{' && s[j] == '}'
  }

  /** `t` is `s[i..j]` for some bounds. */
  predicate IsSubstring(t: string, s: string) {
    exists i, j :: 0 <= i <= j <= |s| && t == s[i..j]
  }

  /**
   * `extractJSON`: the span from the first `{` to the last `}`, both included,
   * when the last `}` comes after the first `{`; otherwise the reply unchanged.
   * This is a textual span, not a brace-balanced parse.
   */
  function ExtractJSON(content: string): (r: string)
    ensures HasBracePair(content) ==> 2 <= |r| && r[0] == '{' && r[|r| - 1] == '}'
    ensures !HasBracePair(content) ==> r == content
  {
    var start := Index(content, '{');
    var end := LastIndex(content, '}');
    if start >= 0 && end >= 0 && end > start then content[start..end + 1] else content
  }

  /** The extraction condition of the code is exactly the existence of a `{` before a `}`. */
  lemma ExtractConditionIff(content: string)
    ensures (var start, end := Index(content, '{'), LastIndex(content, '}');
             start >= 0 && end >= 0 && end > start) <==> HasBracePair(content)
  {
    var start, end := Index(content, '{'), LastIndex(content, '}');
    if HasBracePair(content) {
      var i, j :| 0 <= i < j < |content| && content[i] == '{' && content[j] == '}';
      assert start >= 0 && start <= i;
      assert end >= j;
    }
  }

  /**
   * `content[i..j+1]` is the outermost brace span: `i` is the first `{`, `j` the
   * last `}`, and `i < j`.
   */
  predicate IsOutermostSpan(content: string, i: int, j: int) {
    && 0 <= i < j < |content|
    && content[i] == '{' && (forall k :: 0 <= k < i ==> content[k] != '{')
    && content[j] == '}' && (forall k :: j < k < |content| ==> content[k] != '}')
  }

  /** Given the outermost span, the result is exactly that span, braces included. */
  lemma ExtractJSONSpan(content: string, i: int, j: int)
    requires IsOutermostSpan(content, i, j)
    ensures ExtractJSON(content) == content[i..j + 1]
  {
    var start, end := Index(content, '{'), LastIndex(content, '}');
    assert start == i;
    assert end == j;
  }

  /**
   * When anything is extracted, it is the outermost span: the input has no `{`
   * before it and no `}` after it.
   */
  lemma ExtractJSONOutermost(content: string)
    requires HasBracePair(content)
    ensures exists i, j :: IsOutermostSpan(content, i, j) && ExtractJSON(content) == content[i..j + 1]
  {
    ExtractConditionIff(content);
    var start, end := Index(content, '{'), LastIndex(content, '}');
    assert IsOutermostSpan(content, start, end);
    assert ExtractJSON(content) == content[start..end + 1];
  }

  /** The result is always a contiguous piece of the reply, so never longer than it. */
  lemma ExtractJSONSubstring(content: string)
    ensures IsSubstring(ExtractJSON(content), content)
    ensures |ExtractJSON(content)| <= |content|
  {
    var start, end := Index(content, '{'), LastIndex(content, '}');
    if start >= 0 && end >= 0 && end > start {
      assert ExtractJSON(content) == content[start..end + 1];
    } else {
      assert ExtractJSON(content) == content[0..|content|];
    }
  }

  /** The reply comes back unchanged exactly when it has no `{`-before-`}` pair or already runs from `{` to `}`. */
  lemma ExtractJSONUnchangedIff(content: string)
    ensures ExtractJSON(content) == content <==>
      (!HasBracePair(content) || (content[0] == '{' && content[|content| - 1] == '}'))
  {
    if HasBracePair(content) && content[0] == '{' && content[|content| - 1] == '}' {
      ExtractJSONSpan(content, 0, |content| - 1);
      assert content[0..|content|] == content;
    }
  }

  /** Extracting twice is the same as extracting once. */
  lemma ExtractJSONIdempotent(content: string)
    ensures ExtractJSON(ExtractJSON(content)) == ExtractJSON(content)
  {
    var r := ExtractJSON(content);
    if HasBracePair(content) {
      assert 0 < |r| - 1 && r[0] == '{' && r[|r| - 1] == '}';
      assert HasBracePair(r);
      ExtractJSONUnchangedIff(r);
    }
  }

  /**
   * Known limitation: there is no brace-depth counting. Two objects `a` and `b`
   * with any text `t` between them come back as one span covering both.
   */
  lemma ExtractJSONTwoObjects(a: string, t: string, b: string)
    requires |a| >= 1 && a[0] == '{'
    requires |b| >= 1 && b[|b| - 1] == '}'
    ensures ExtractJSON(a + t + b) == a + t + b
  {
    var s := a + t + b;
    assert s[0] == '{' && s[|s| - 1] == '}';
    assert HasBracePair(s);
    ExtractJSONUnchangedIff(s);
  }

  // ---------------------------------------------------------------------------
  // GenerateTimeline, from the chat reply on

  /** One element of the decoded struct's `tasks` array (client.go:93-100). */
  datatype DecodedTask = DecodedTask(
    title: string,
    description: string,
    startDate: string,
    endDate: string,
    duration: string,
    priority: int)

  /** The anonymous struct `timelineData` that `json.Unmarshal` fills (client.go:88-101). */
  datatype DecodedTimeline = DecodedTimeline(
    title: string,
    description: string,
    startDate: string,
    endDate: string,
    tasks: seq<DecodedTask>)

  /** `json.Unmarshal` into `timelineData`: the decoded struct or the decoder's error text. */
  type Decoder = string -> Result<DecodedTimeline, string>

  /** What the chat call returned: the message content of each choice, in order. */
  datatype ChatCompletionResponse = ChatCompletionResponse(choices: seq<string>)

  /** The two ways the operation fails, each carrying the underlying error's text. */
  datatype GenerateError = APIError(cause: string) | ParseError(cause: string) {

    /** The text `fmt.Errorf` produces for this error: a kind-specific prefix, then the cause's error text (formatted with `%v`, so nothing is wrapped). */
    function Message(): (m: string)
      ensures |m| > |cause| && m[|m| - |cause|..] == cause
    {
      match this
      case APIError(c) => "OpenAI API error: " + c
      case ParseError(c) => "error parsing timeline JSON: " + c
    }
  }

  /** A caller can tell from the message alone which step failed. */
  lemma MessageNamesKind(e1: GenerateError, e2: GenerateError)
    requires e1.APIError? && e2.ParseError?
    ensures e1.Message() != e2.Message()
  {
    assert e1.Message()[0] == 'O';
    assert e2.Message()[0] == 'e';
  }

  /** Reference copy of one decoded task: every field carried over, `ID` never set. */
  function TaskFromDecoded(t: DecodedTask): GraphModel.TimelineTask {
    GraphModel.TimelineTask("", t.title, t.description, t.startDate, t.endDate, t.duration, t.priority)
  }

  /** Reference copy of the decoded timeline, tasks in decoded order. */
  function TimelineFromDecoded(d: DecodedTimeline): GraphModel.Timeline {
    GraphModel.Timeline("", d.title, d.description, d.startDate, d.endDate,
      seq(|d.tasks|, i requires 0 <= i < |d.tasks| => TaskFromDecoded(d.tasks[i])))
  }

  /** Forgets the wire-only `ID`s: the inverse direction of the copy. */
  function TimelineToDecoded(w: GraphModel.Timeline): DecodedTimeline {
    DecodedTimeline(w.title, w.description, w.startDate, w.endDate,
      seq(|w.tasks|, i requires 0 <= i < |w.tasks| =>
        var t := w.tasks[i];
        DecodedTask(t.title, t.description, t.startDate, t.endDate, t.duration, t.priority)))
  }

  /** The timeline and every task of it have an empty `ID`. */
  predicate IdsEmpty(w: GraphModel.Timeline) {
    w.id == "" && forall i :: 0 <= i < |w.tasks| ==> w.tasks[i].id == ""
  }

  /**
   * The copy keeps the task count, the order and every field, leaves every
   * `ID` empty, and keeps the dates as the decoded strings.
   */
  lemma TimelineFromDecodedCopies(d: DecodedTimeline)
    ensures var w := TimelineFromDecoded(d);
      && w.id == "" && w.title == d.title && w.description == d.description
      && w.startDate == d.startDate && w.endDate == d.endDate
      && |w.tasks| == |d.tasks|
      && forall i :: 0 <= i < |d.tasks| ==>
           && w.tasks[i].id == ""
           && w.tasks[i].title == d.tasks[i].title
           && w.tasks[i].description == d.tasks[i].description
           && w.tasks[i].startDate == d.tasks[i].startDate
           && w.tasks[i].endDate == d.tasks[i].endDate
           && w.tasks[i].duration == d.tasks[i].duration
           && w.tasks[i].priority == d.tasks[i].priority
  {
  }

  /** Nothing decoded is lost: forgetting the `ID`s gives back the decoded struct. */
  lemma {:induction false} TimelineFromDecodedLossless(d: DecodedTimeline)
    ensures TimelineToDecoded(TimelineFromDecoded(d)) == d
  {
    var back := TimelineToDecoded(TimelineFromDecoded(d));
    assert back.tasks == d.tasks;
  }

  /** The copies are exactly the timelines whose `ID`s are all empty. */
  lemma {:induction false} TimelineFromDecodedImage(w: GraphModel.Timeline)
    ensures IdsEmpty(w) <==> TimelineFromDecoded(TimelineToDecoded(w)) == w
  {
    var w' := TimelineFromDecoded(TimelineToDecoded(w));
    if IdsEmpty(w) {
      assert w'.tasks == w.tasks;
    } else if w' == w {
      TimelineFromDecodedCopies(TimelineToDecoded(w));
      assert false;
    }
  }

  /**
   * `GenerateTimeline` from the chat call's outcome on: an API error fails the
   * whole operation; otherwise the first choice's content goes through
   * `ExtractJSON` to the decoder; a decoding error fails it; a decoded struct
   * is copied into a fresh timeline. Failure never carries a timeline.
   * The source assumes the reply has at least one choice (it indexes
   * `resp.Choices[0]` and would panic otherwise).
   */
  method GenerateTimeline(chat: Result<ChatCompletionResponse, string>, decode: Decoder)
    returns (r: Result<GraphModel.Timeline, GenerateError>)
    requires chat.Success? ==> |chat.value.choices| > 0
    ensures chat.Failure? ==> r == Failure(APIError(chat.error))
    ensures chat.Success? ==>
      var decoded := decode(ExtractJSON(chat.value.choices[0]));
      r == if decoded.Success? then Success(TimelineFromDecoded(decoded.value))
           else Failure(ParseError(decoded.error))
  {
    if chat.Failure? {
      return Failure(APIError(chat.error));
    }
    var content := chat.value.choices[0];
    content := ExtractJSON(content);
    var decoded := decode(content);
    if decoded.Failure? {
      return Failure(ParseError(decoded.error));
    }
    var timelineData := decoded.value;
    var tasks := new GraphModel.TimelineTask[|timelineData.tasks|];
    for i := 0 to |timelineData.tasks|
      invariant forall k :: 0 <= k < i ==> tasks[k] == TaskFromDecoded(timelineData.tasks[k])
    {
      var task := timelineData.tasks[i];
      tasks[i] := GraphModel.TimelineTask("", task.title, task.description, task.startDate,
                                          task.endDate, task.duration, task.priority);
    }
    assert tasks[..] == TimelineFromDecoded(timelineData).tasks;
    var timeline := GraphModel.Timeline("", timelineData.title, timelineData.description,
                                        timelineData.startDate, timelineData.endDate, tasks[..]);
    return Success(timeline);
  }
}

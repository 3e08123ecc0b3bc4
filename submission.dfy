/** What one form submission does, as functions of its inputs: the three
    validation checks, the bounded retry over the workflow's answers, and the
    normalisation of the answer into the displayed result. The network is an
    input: `network[k]` is what the k-th POST to the workflow yields. */
module Submission {
  import opened Strings

  datatype Option<T> = None | Some(value: T)

  /** The analysis variant the workflow is asked for. */
  datatype Mode = Summary | Sentiment

  /** The request body: the trimmed text and the selected mode. */
  datatype Payload = Payload(text: string, mode: Mode)

  /** The body's `analysis` field: absent, JSON null, or a string. */
  datatype Analysis = Missing | NullValue | Text(value: string)

  /** A response's `data` when it is present. */
  datatype Body = Body(analysis: Analysis)

  /** A transport-level success; `data` is None when the body is missing or falsy. */
  datatype Response = Response(data: Option<Body>)

  /** What a failed POST throws: the server's `response.data`, if any, and the
      error's `message`, if any. */
  datatype RequestError = RequestError(responseData: Option<string>, message: Option<string>)

  /** The outcome of one POST. */
  datatype Outcome = Answered(response: Response) | Threw(err: RequestError)

  /** The `result` state: null, undefined (an answer without `analysis`), or a string. */
  datatype Display = Null | Undefined | Shown(text: string)

  /** The three observable state variables the handler writes. */
  datatype View = View(loading: bool, result: Display, error: Option<string>)

  /** How the retry loop ends: with the answer of attempt `attempts`, or with
      the error text of the last failure once every attempt failed. */
  datatype Delivery = Delivered(attempts: nat, response: Response) | GaveUp(attempts: nat, error: string)

  /** The state after one submission and the payloads posted, in order. */
  datatype Run = Run(after: View, posted: seq<Payload>)

  const MaxLength: nat := 1500
  const MaxAttempts: nat := 2

  const ConfigErrorMessage := "Configuration error: REACT_APP_n8nLink not set."
  const EmptyTextMessage := "Please enter some text."
  const TooLongMessage := "Input too long (max 1500 characters). Please shorten it."
  const RequestFailedMessage := "Request failed"
  const NoResponseMessage := "No response from workflow"

  /** JavaScript truthiness of an optional string: present and not empty. */
  predicate Truthy(v: Option<string>) {
    v.Some? && v.value != ""
  }

  /** The validation chain: the first failing check gives its message; None
      means the request may be sent. */
  function Validate(endpoint: Option<string>, text: string): Option<string> {
    if !Truthy(endpoint) then Some(ConfigErrorMessage)
    else if Trim(text) == "" then Some(EmptyTextMessage)
    else if |text| > MaxLength then Some(TooLongMessage)
    else None
  }

  /** A submission passes validation exactly when the endpoint is set, the
      text is not blank and its raw length is within the limit; otherwise the
      first failing check, in the order endpoint, blank, length, names the
      message. */
  lemma ValidateSpec(endpoint: Option<string>, text: string)
    ensures Validate(endpoint, text) == None <==> Truthy(endpoint) && !Blank(text) && |text| <= MaxLength
    ensures !Truthy(endpoint) ==> Validate(endpoint, text) == Some(ConfigErrorMessage)
    ensures Truthy(endpoint) && Blank(text) ==> Validate(endpoint, text) == Some(EmptyTextMessage)
    ensures Truthy(endpoint) && !Blank(text) && |text| > MaxLength ==>
      Validate(endpoint, text) == Some(TooLongMessage)
  {
    TrimSpec(text);
  }

  /** The error shown after the final failure: the server's body, else the
      error message, else the generic fallback; never empty. */
  function ErrorText(e: RequestError): (r: string)
    ensures r != ""
    ensures Truthy(e.responseData) ==> r == e.responseData.value
    ensures !Truthy(e.responseData) && Truthy(e.message) ==> r == e.message.value
    ensures !Truthy(e.responseData) && !Truthy(e.message) ==> r == RequestFailedMessage
  {
    if Truthy(e.responseData) then e.responseData.value
    else if Truthy(e.message) then e.message.value
    else RequestFailedMessage
  }

  /** The retry loop from attempt index `attempt` on. */
  function Retry(network: seq<Outcome>, attempt: nat): Delivery
    requires attempt < MaxAttempts <= |network|
    decreases MaxAttempts - attempt
  {
    match network[attempt]
    case Answered(response) => Delivered(attempt + 1, response)
    case Threw(err) =>
      if attempt + 1 >= MaxAttempts then GaveUp(attempt + 1, ErrorText(err))
      else Retry(network, attempt + 1)
  }

  /** The retry loop stops at the first answer, and gives up only after every
      attempt failed, with the error of the last one. */
  lemma {:induction false} RetryFirstAnswer(network: seq<Outcome>, attempt: nat)
    requires attempt < MaxAttempts <= |network|
    ensures attempt < Retry(network, attempt).attempts <= MaxAttempts
    ensures forall k :: attempt <= k < Retry(network, attempt).attempts - 1 ==> network[k].Threw?
    ensures Retry(network, attempt).Delivered? ==>
      network[Retry(network, attempt).attempts - 1] == Answered(Retry(network, attempt).response)
    ensures Retry(network, attempt).GaveUp? ==>
      Retry(network, attempt).attempts == MaxAttempts &&
      network[MaxAttempts - 1].Threw? &&
      Retry(network, attempt).error == ErrorText(network[MaxAttempts - 1].err)
    decreases MaxAttempts - attempt
  {
    if network[attempt].Threw? && attempt + 1 < MaxAttempts {
      RetryFirstAnswer(network, attempt + 1);
    }
  }

  /** The displayed result for an answer whose body is present: the stripped
      analysis if the analysis contains `**` and stripping leaves something,
      else the analysis itself; a null analysis gives null (`?.` stops before
      `includes`, and `undefined || null` is null), a missing one undefined. */
  function ShownAnalysis(analysis: Analysis): Display {
    match analysis
    case Missing => Undefined
    case NullValue => Null
    case Text(a) =>
      var modifyData: Option<string> := if HasMarker(a) then Some(Strip(a)) else None;
      if modifyData.Some? && modifyData.value != "" then Shown(modifyData.value) else Shown(a)
  }

  /** Only a string analysis is shown; a null one leaves the result null and
      a missing one makes it undefined. */
  lemma ShownOnlyText(analysis: Analysis)
    ensures ShownAnalysis(analysis).Shown? <==> analysis.Text?
    ensures analysis == NullValue <==> ShownAnalysis(analysis) == Null
    ensures analysis == Missing <==> ShownAnalysis(analysis) == Undefined
  {
  }

  /** The shown result is the stripped analysis, unless stripping empties it,
      in which case the raw analysis is shown; in the first case no `**` remains. */
  lemma ShownIsStripped(a: string)
    ensures ShownAnalysis(Text(a)) == Shown(if Strip(a) == "" then a else Strip(a))
    ensures Strip(a) != "" ==> !HasMarker(ShownAnalysis(Text(a)).text)
  {
    StripUnchanged(a);
    StripRemovesMarkers(a);
  }

  /** Markers are removed from the analysis before it is shown. */
  lemma ShownExampleMarked()
    ensures ShownAnalysis(Text("**Great** job")) == Shown("Great job")
  {
    StripExample();
    ShownIsStripped("**Great** job");
  }

  /** An analysis without markers is shown as it is. */
  lemma ShownExamplePlain()
    ensures ShownAnalysis(Text("Great job")) == Shown("Great job")
  {
    var plain := "Great job";
    forall i | 0 <= i < |plain| - 1
      ensures !MarkerAt(plain, i)
    {
      assert plain[i] != '*';
    }
  }

  /** An analysis made only of markers strips to "", so it is shown raw. */
  lemma ShownExampleOnlyMarkers()
    ensures ShownAnalysis(Text("****")) == Shown("****")
  {
    var stars := "****";
    assert MarkerAt(stars, 0);
    assert Strip(stars) == "" by {
      assert stars[2..] == "**";
      assert "**"[2..] == "";
    }
  }

  /** `n` copies of the same payload. */
  function Repeat(p: Payload, n: nat): (r: seq<Payload>)
    ensures |r| == n && forall k :: 0 <= k < n ==> r[k] == p
  {
    if n == 0 then [] else Repeat(p, n - 1) + [p]
  }

  /** The view once an answer has arrived: its body's analysis, normalised,
      or the empty-response error when the body is missing. */
  function Normalise(response: Response): View {
    if response.data.Some? then View(false, ShownAnalysis(response.data.value.analysis), None)
    else View(false, Null, Some(NoResponseMessage))
  }

  /** The network phase: post `payload` until an answer arrives or the
      attempts run out. */
  function Post(payload: Payload, network: seq<Outcome>): Run
    requires MaxAttempts <= |network|
  {
    match Retry(network, 0)
    case GaveUp(n, message) => Run(View(false, Null, Some(message)), Repeat(payload, n))
    case Delivered(n, response) => Run(Normalise(response), Repeat(payload, n))
  }

  /** One submission from state `before`: validation, then the posts and the
      normalised answer. A rejected submission clears the result, sets the
      error and leaves `loading` as it was. */
  function Submit(before: View, text: string, mode: Mode, endpoint: Option<string>,
                  network: seq<Outcome>): Run
    requires MaxAttempts <= |network|
  {
    match Validate(endpoint, text)
    case Some(message) => Run(View(before.loading, Null, Some(message)), [])
    case None => Post(Payload(Trim(text), mode), network)
  }

  /** A missing endpoint is reported first, whatever the text: nothing is posted,
      the result is cleared and `loading` keeps its value. */
  lemma MissingEndpointRejected(before: View, text: string, mode: Mode, endpoint: Option<string>,
                                network: seq<Outcome>)
    requires MaxAttempts <= |network|
    requires !Truthy(endpoint)
    ensures Submit(before, text, mode, endpoint, network) ==
            Run(View(before.loading, Null, Some(ConfigErrorMessage)), [])
  {
  }

  /** Text that trims to nothing is rejected without a post. */
  lemma BlankTextRejected(before: View, text: string, mode: Mode, endpoint: Option<string>,
                          network: seq<Outcome>)
    requires MaxAttempts <= |network|
    requires Truthy(endpoint) && Blank(text)
    ensures Submit(before, text, mode, endpoint, network) ==
            Run(View(before.loading, Null, Some(EmptyTextMessage)), [])
  {
    ValidateSpec(endpoint, text);
  }

  /** Text longer than the limit before trimming is rejected without a post. */
  lemma LongTextRejected(before: View, text: string, mode: Mode, endpoint: Option<string>,
                         network: seq<Outcome>)
    requires MaxAttempts <= |network|
    requires Truthy(endpoint) && !Blank(text) && |text| > MaxLength
    ensures Submit(before, text, mode, endpoint, network) ==
            Run(View(before.loading, Null, Some(TooLongMessage)), [])
  {
    ValidateSpec(endpoint, text);
  }

  /** The length limit applies to the raw text: one letter followed by 1500
      spaces trims to one character and is still rejected as too long. */
  lemma PaddedTextRejected(endpoint: Option<string>)
    requires Truthy(endpoint)
    ensures var text := "a" + seq(MaxLength, _ => ' ');
            Trim(text) == "a" && Validate(endpoint, text) == Some(TooLongMessage)
  {
    var pad := seq(MaxLength, _ => ' ');
    var text := "a" + pad;
    assert TrimStart(text) == text;
    TrimEndSpec(text);
    var r := Trim(text);
    assert r != "" by {
      assert !IsWhitespace(text[0]);
    }
    assert r == text[..|r|];
    assert forall i | 1 <= i < |text| :: IsWhitespace(text[i]);
  }

  /** A valid submission posts the trimmed text once or twice, a second time
      exactly when the first post fails, and ends with `loading` off. */
  lemma AcceptedPostsOnceOrTwice(before: View, text: string, mode: Mode, endpoint: Option<string>,
                                 network: seq<Outcome>)
    requires MaxAttempts <= |network|
    requires Validate(endpoint, text) == None
    ensures var run := Submit(before, text, mode, endpoint, network);
            1 <= |run.posted| <= MaxAttempts &&
            (|run.posted| == 1 <==> network[0].Answered?) &&
            (forall k :: 0 <= k < |run.posted| ==> run.posted[k] == Payload(Trim(text), mode)) &&
            !run.after.loading
  {
    RetryFirstAnswer(network, 0);
  }

  /** The first answer is the one used: if it comes on attempt k (and every
      earlier attempt failed), k + 1 payloads are posted and the view is built
      from that answer. */
  lemma FirstAnswerUsed(before: View, text: string, mode: Mode, endpoint: Option<string>,
                        network: seq<Outcome>, k: nat)
    requires MaxAttempts <= |network|
    requires Validate(endpoint, text) == None
    requires k < MaxAttempts && network[k].Answered?
    requires forall j :: 0 <= j < k ==> network[j].Threw?
    ensures var run := Submit(before, text, mode, endpoint, network);
            var data := network[k].response.data;
            |run.posted| == k + 1 &&
            run.after == (if data.Some? then View(false, ShownAnalysis(data.value.analysis), None)
                          else View(false, Null, Some(NoResponseMessage)))
  {
    RetryFirstAnswer(network, 0);
  }

  /** When both attempts fail, both are posted and the error is the second
      failure's, chosen by `ErrorText`; the result stays null. */
  lemma BothAttemptsFailed(before: View, text: string, mode: Mode, endpoint: Option<string>,
                           network: seq<Outcome>)
    requires MaxAttempts <= |network|
    requires Validate(endpoint, text) == None
    requires network[0].Threw? && network[1].Threw?
    ensures Submit(before, text, mode, endpoint, network) ==
            Run(View(false, Null, Some(ErrorText(network[1].err))),
                [Payload(Trim(text), mode), Payload(Trim(text), mode)])
  {
    RetryFirstAnswer(network, 0);
  }

  /** Whatever happens, the error and a result are never both set. */
  lemma ErrorExcludesResult(before: View, text: string, mode: Mode, endpoint: Option<string>,
                            network: seq<Outcome>)
    requires MaxAttempts <= |network|
    ensures var after := Submit(before, text, mode, endpoint, network).after;
            after.error == None || after.result == Null
  {
  }

  /** A submission that got past validation always ends with `loading` off; a
      rejected one leaves it as it was. */
  lemma LoadingCleared(before: View, text: string, mode: Mode, endpoint: Option<string>,
                       network: seq<Outcome>)
    requires MaxAttempts <= |network|
    ensures var after := Submit(before, text, mode, endpoint, network).after;
            if Validate(endpoint, text) == None then !after.loading else after.loading == before.loading
  {
  }

  /** Only `loading` carries over from one submission to the next, and only
      when validation fails: two identical submissions post the same requests. */
  lemma SubmitIndependentOfPrevious(v1: View, v2: View, text: string, mode: Mode,
                                    endpoint: Option<string>, network: seq<Outcome>)
    requires MaxAttempts <= |network|
    requires v1.loading == v2.loading || Validate(endpoint, text) == None
    ensures Submit(v1, text, mode, endpoint, network) == Submit(v2, text, mode, endpoint, network)
  {
  }
}

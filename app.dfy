/** The form component of src/App.js: the state it keeps and its submission
    handler, which validates, posts with one retry and normalises the answer,
    writing `loading`, `result` and `error` as it goes. */
module AppComponent {
  import opened Strings
  import opened Submission

  class App {
    var text: string
    var mode: Mode
    var loading: bool
    var result: Display
    var error: Option<string>

    /** The three state variables the handler writes, as one value. */
    function State(): View
      reads this
    {
      View(loading, result, error)
    }

    /** The initial state: empty text, summary mode, idle, no result, no error. */
    constructor ()
      ensures text == "" && mode == Summary
      ensures !loading && result == Null && error == None
    {
      text := "";
      mode := Summary;
      loading := false;
      result := Null;
      error := None;
    }

    /** The text area's change handler. */
    method SetText(value: string)
      modifies this`text
      ensures text == value
    {
      text := value;
    }

    /** The radio buttons' change handler. */
    method SetMode(value: Mode)
      modifies this`mode
      ensures mode == value
    {
      mode := value;
    }

    /** One form submission against the configured `endpoint`, where
        `network[k]` is what the k-th POST yields. Returns the payloads
        posted, in order. The new state is the one `Submit` describes. */
    method HandleSubmit(endpoint: Option<string>, network: seq<Outcome>) returns (posted: seq<Payload>)
      requires MaxAttempts <= |network|
      modifies this`loading, this`result, this`error
      ensures State() == Submit(old(State()), text, mode, endpoint, network).after
      ensures posted == Submit(old(State()), text, mode, endpoint, network).posted
    {
      error := None;
      result := Null;
      posted := [];

      if !Truthy(endpoint) {
        error := Some(ConfigErrorMessage);
        return;
      }
      if Trim(text) == "" {
        error := Some(EmptyTextMessage);
        return;
      }
      if |text| > MaxLength {
        error := Some(TooLongMessage);
        return;
      }

      loading := true;
      var payload := Payload(Trim(text), mode);
      var attempt := 0;
      var resp: Option<Response> := None;

      while attempt < MaxAttempts
        invariant 0 <= attempt < MaxAttempts
        invariant posted == Repeat(payload, attempt)
        invariant Retry(network, attempt) == Retry(network, 0)
        invariant resp == None
        invariant loading && result == Null && error == None
        decreases MaxAttempts - attempt
      {
        posted := posted + [payload];
        match network[attempt]
        case Answered(response) =>
          resp := Some(response);
          break;
        case Threw(err) =>
          attempt := attempt + 1;
          if attempt >= MaxAttempts {
            error := Some(ErrorText(err));
            loading := false;
            return;
          }
      }

      if resp.Some? && resp.value.data.Some? {
        var analysis := resp.value.data.value.analysis;
        var modifyData: Option<string> := None;
        if analysis.Text? && HasMarker(analysis.value) {
          modifyData := Some(Strip(analysis.value));
        }
        if modifyData.Some? && modifyData.value != "" {
          result := Shown(modifyData.value);
        } else {
          match analysis
          case Text(a) => result := Shown(a);
          case NullValue => result := Null;
          case Missing => result := Undefined;
        }
      } else {
        error := Some(NoResponseMessage);
      }

      loading := false;
    }
  }
}

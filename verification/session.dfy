/** The plugin's controller: the `figma.ui.onmessage` handler for the
    commands of the UI, the selection-change handler, and the saved settings.
    The settings store is a map from key to value; the completion service is a
    function from request to response. */
module Session {
  import opened Wrappers
  import opened Aggregator
  import Completion
  import Sanitizer

  const ApiKeyKey: string := "openai_api_key"
  const InstructionsKey: string := "custom_instructions"
  const NoTextLayerError: string := "Please select at least one text layer"

  /** A message from the UI, by its `type`. */
  datatype Command =
    | Cancel
    | ProcessText(apiKey: string, instructions: string)
    | SaveInstructions(instructions: string)
    | Unrecognised(kind: string)

  /** The `process-result` message: a result or an error. */
  datatype ProcessResult = Processed(result: string) | ProcessError(error: string)

  /** The aggregator's state, the settings store, and whether the plugin was
      closed. */
  datatype SessionState = SessionState(agg: AggState, storage: map<string, string>, closed: bool)

  /** One handled command: the new state, the `process-result` posted if any,
      and the requests sent to the completion service. */
  datatype Step = Step(state: SessionState, reply: Option<ProcessResult>, requests: seq<Completion.Request>)

  /** The `load-saved-data` message. */
  datatype SavedData = SavedData(apiKey: string, instructions: string)

  /** A stored value, or the empty string when there is none. */
  function Stored(storage: map<string, string>, key: string): string
  {
    if key in storage then storage[key] else ""
  }

  /** `loadSavedData`: both settings, missing ones as empty strings. */
  function LoadSavedData(storage: map<string, string>): SavedData
  {
    SavedData(Stored(storage, ApiKeyKey), Stored(storage, InstructionsKey))
  }

  /** The effect of one UI message. A `process-text` reads the text through
      `getTextFromNodes` directly, without the eviction step of a selection
      change. */
  function Dispatch(st: SessionState, cmd: Command, selection: seq<Node>, server: Completion.Request -> Completion.Response): Step
  {
    match cmd
    case Cancel => Step(st.(closed := true), None, [])
    case ProcessText(apiKey, instructions) =>
      var textNodes := TextNodes(selection);
      if |textNodes| == 0 then Step(st, Some(ProcessError(NoTextLayerError)), [])
      else Complete(st.(agg := Absorb(st.agg, selection, textNodes)), apiKey, instructions, server)
    case SaveInstructions(instructions) =>
      Step(st.(storage := st.storage[InstructionsKey := instructions]), None, [])
    case Unrecognised(_) => Step(st, None, [])
  }

  /** The second half of `process-text`, once the text is aggregated:
      `callOpenAI` on the aggregated text, then, when it returns, both settings
      stored and the result posted; when it throws, the error posted. */
  function Complete(st: SessionState, apiKey: string, instructions: string, server: Completion.Request -> Completion.Response): Step
  {
    match Completion.Prepare(st.agg.text, apiKey, instructions)
    case Failure(e) => Step(st, Some(ProcessError(e)), [])
    case Success(request) =>
      (match Completion.Interpret(server(request))
       case Failure(e) => Step(st, Some(ProcessError(e)), [request])
       case Success(result) =>
         Step(st.(storage := st.storage[ApiKeyKey := apiKey][InstructionsKey := instructions]),
              Some(Processed(result)), [request]))
  }

  /** With a valid key and a service that answers ok, the request built from
      the aggregated text is sent, the answer is posted and both settings are
      stored. */
  lemma CompleteSucceeds(st: SessionState, apiKey: string, instructions: string,
                         server: Completion.Request -> Completion.Response, answer: string)
    requires Completion.ValidateApiKey(apiKey)
    requires forall q :: server(q) == Completion.HttpResponse(200, None, answer)
    ensures Complete(st, apiKey, instructions, server)
              == Step(st.(storage := st.storage[ApiKeyKey := apiKey][InstructionsKey := instructions]),
                      Some(Processed(answer)), [Completion.BuildRequest(st.agg.text, instructions)])
  {
    var request := Completion.BuildRequest(st.agg.text, instructions);
    assert Completion.Prepare(st.agg.text, apiKey, instructions) == Success(request);
    assert Completion.Interpret(server(request)) == Success(answer);
  }

  /** `process-text` without a selected text layer posts the selection error,
      sends nothing and changes nothing. */
  lemma ProcessWithoutTextLayer(st: SessionState, apiKey: string, instructions: string, selection: seq<Node>, server: Completion.Request -> Completion.Response)
    requires !HasTextNodes(selection)
    ensures Dispatch(st, ProcessText(apiKey, instructions), selection, server)
              == Step(st, Some(ProcessError(NoTextLayerError)), [])
  {
    HasTextNodesIffTextNodes(selection);
  }

  /** With a selected text layer, `process-text` posts exactly the outcome of
      `callOpenAI` on the aggregated text, sends one request when the key is
      valid and none otherwise, and leaves the closed flag alone. */
  lemma ProcessReplyIsCompletionOutcome(st: SessionState, apiKey: string, instructions: string, selection: seq<Node>, server: Completion.Request -> Completion.Response)
    requires HasTextNodes(selection)
    ensures var r := Dispatch(st, ProcessText(apiKey, instructions), selection, server);
            var text := Absorb(st.agg, selection, TextNodes(selection)).text;
            && r.reply == Some(match Completion.CallOpenAI(text, apiKey, instructions, server)
                               case Success(x) => Processed(x)
                               case Failure(e) => ProcessError(e))
            && r.requests == (if Completion.ValidateApiKey(apiKey) then [Completion.BuildRequest(text, instructions)] else [])
            && r.state.agg == Absorb(st.agg, selection, TextNodes(selection))
            && r.state.closed == st.closed
  {
    HasTextNodesIffTextNodes(selection);
  }

  /** The completion half writes the store exactly when it posts a result,
      and then writes both settings; one request is sent whenever a result
      is posted. */
  lemma CompleteStorage(st: SessionState, apiKey: string, instructions: string,
                        server: Completion.Request -> Completion.Response)
    ensures var r := Complete(st, apiKey, instructions, server);
            && r.reply.Some?
            && (r.reply.value.ProcessError? ==> r.state.storage == st.storage)
            && (r.reply.value.Processed? ==>
                  && r.state.storage == st.storage[ApiKeyKey := apiKey][InstructionsKey := instructions]
                  && LoadSavedData(r.state.storage) == SavedData(apiKey, instructions)
                  && |r.requests| == 1)
  {
    var m := st.storage[ApiKeyKey := apiKey][InstructionsKey := instructions];
    assert ApiKeyKey != InstructionsKey;
    assert LoadSavedData(m) == SavedData(apiKey, instructions);
  }

  /** The completion half changes neither the text nor the processed ids. */
  lemma CompleteKeepsAggregate(st: SessionState, apiKey: string, instructions: string,
                               server: Completion.Request -> Completion.Response)
    ensures Complete(st, apiKey, instructions, server).state.agg == st.agg
  {
  }

  /** What `process-text` does to the aggregator: `getTextFromNodes` on the
      selection's text layers when there are any, nothing otherwise. */
  lemma ProcessAggregate(st: SessionState, cmd: Command, selection: seq<Node>,
                         server: Completion.Request -> Completion.Response)
    requires cmd.ProcessText?
    ensures Dispatch(st, cmd, selection, server).state.agg
              == if |TextNodes(selection)| == 0 then st.agg else Absorb(st.agg, selection, TextNodes(selection))
  {
    if |TextNodes(selection)| != 0 {
      CompleteKeepsAggregate(st.(agg := Absorb(st.agg, selection, TextNodes(selection))),
                             cmd.apiKey, cmd.instructions, server);
    }
  }

  /** A second `process-text` on the same selection leaves the aggregated
      text and the processed ids as the first one left them, whatever the
      key, the instructions and the service: no layer's text is appended to
      the aggregate twice. The request it sends carries the whole aggregated
      text again. */
  lemma RepeatedProcessKeepsText(st: SessionState, selection: seq<Node>,
                                 first: Command, second: Command,
                                 server: Completion.Request -> Completion.Response,
                                 other: Completion.Request -> Completion.Response)
    requires first.ProcessText? && second.ProcessText?
    ensures var r1 := Dispatch(st, first, selection, server);
            Dispatch(r1.state, second, selection, other).state.agg == r1.state.agg
  {
    var r1 := Dispatch(st, first, selection, server);
    ProcessAggregate(st, first, selection, server);
    ProcessAggregate(r1.state, second, selection, other);
    if |TextNodes(selection)| != 0 {
      AbsorbIdempotent(st.agg, selection);
    }
  }

  /** A `process-text` that posts an error writes nothing to the store. */
  lemma ProcessFailureKeepsStorage(st: SessionState, apiKey: string, instructions: string, selection: seq<Node>, server: Completion.Request -> Completion.Response)
    ensures var r := Dispatch(st, ProcessText(apiKey, instructions), selection, server);
            r.reply.Some? && r.reply.value.ProcessError? ==> r.state.storage == st.storage
  {
    if |TextNodes(selection)| != 0 {
      CompleteStorage(st.(agg := Absorb(st.agg, selection, TextNodes(selection))), apiKey, instructions, server);
    }
  }

  /** A `process-text` that posts a result has stored both the key and the
      instructions, and loading the saved data then gives them back. */
  lemma ProcessSuccessStoresBoth(st: SessionState, apiKey: string, instructions: string, selection: seq<Node>, server: Completion.Request -> Completion.Response)
    ensures var r := Dispatch(st, ProcessText(apiKey, instructions), selection, server);
            r.reply.Some? && r.reply.value.Processed? ==>
              && r.state.storage == st.storage[ApiKeyKey := apiKey][InstructionsKey := instructions]
              && LoadSavedData(r.state.storage) == SavedData(apiKey, instructions)
              && |r.requests| == 1
  {
    if |TextNodes(selection)| != 0 {
      CompleteStorage(st.(agg := Absorb(st.agg, selection, TextNodes(selection))), apiKey, instructions, server);
    }
  }

  /** `save-instructions` writes the instructions and no other entry, and
      changes nothing else. */
  lemma SaveInstructionsWritesOnlyInstructions(st: SessionState, instructions: string, selection: seq<Node>, server: Completion.Request -> Completion.Response)
    ensures var r := Dispatch(st, SaveInstructions(instructions), selection, server);
            && r.state.storage[InstructionsKey] == instructions
            && (forall k :: k != InstructionsKey ==> (k in r.state.storage <==> k in st.storage))
            && (forall k :: k != InstructionsKey && k in st.storage ==> r.state.storage[k] == st.storage[k])
            && r.state.agg == st.agg && r.state.closed == st.closed
            && r.reply == None && r.requests == []
  {
  }

  /** With a selected text layer, a valid key and a service that answers ok, the whole
      step: the text is absorbed, exactly the request built from it is sent,
      the content is posted and both settings are stored. */
  lemma ProcessSucceeds(st: SessionState, apiKey: string, instructions: string, selection: seq<Node>,
                        server: Completion.Request -> Completion.Response, answer: string)
    requires HasTextNodes(selection)
    requires Completion.ValidateApiKey(apiKey)
    requires forall q :: server(q) == Completion.HttpResponse(200, None, answer)
    ensures var agg := Absorb(st.agg, selection, TextNodes(selection));
            Dispatch(st, ProcessText(apiKey, instructions), selection, server)
              == Step(SessionState(agg, st.storage[ApiKeyKey := apiKey][InstructionsKey := instructions], st.closed),
                      Some(Processed(answer)), [Completion.BuildRequest(agg.text, instructions)])
  {
    HasTextNodesIffTextNodes(selection);
    CompleteSucceeds(st.(agg := Absorb(st.agg, selection, TextNodes(selection))), apiKey, instructions, server, answer);
  }

  /** The request for two clean texts joined by a double line break carries
      the texts run together, and clean instructions unchanged. */
  lemma TwoLayerRequest(a: string, b: string, instructions: string)
    requires Sanitizer.IsClean(a) && Sanitizer.IsClean(b) && a != "" && b != ""
    requires Sanitizer.IsClean(instructions)
    ensures Completion.BuildRequest(a + "\n\n" + b, instructions)
              == Completion.Request(Completion.SystemPrefix + instructions, Completion.UserPrefix + (a + b))
  {
    Sanitizer.SanitizeDropsSeparator(a, b);
    Sanitizer.SanitizeKeepsCleanText(instructions);
  }

  /** From the state two new layers leave, a `process-text` with a valid key
      that the service answers with `answer` sends one request carrying the
      two texts run together, posts `answer` and stores both settings. */
  lemma ProcessTwoLayers(h: Node, w: Node, apiKey: string, instructions: string, answer: string,
                         server: Completion.Request -> Completion.Response)
    requires h.isText && w.isText && h.id != w.id
    requires Sanitizer.IsClean(h.chars) && Sanitizer.IsClean(w.chars) && h.chars != "" && w.chars != ""
    requires Sanitizer.IsClean(instructions)
    requires Completion.ValidateApiKey(apiKey)
    requires forall q :: server(q) == Completion.HttpResponse(200, None, answer)
    ensures var st := SessionState(AggState(h.chars + "\n\n" + w.chars, {h.id, w.id}), map[], false);
            Dispatch(st, ProcessText(apiKey, instructions), [h, w], server)
              == Step(st.(storage := map[][ApiKeyKey := apiKey][InstructionsKey := instructions]),
                      Some(Processed(answer)),
                      [Completion.Request(Completion.SystemPrefix + instructions, Completion.UserPrefix + (h.chars + w.chars))])
  {
    var sel := [h, w];
    var st := SessionState(AggState(h.chars + "\n\n" + w.chars, {h.id, w.id}), map[], false);
    TwoTextNodes(h, w);
    HasTextNodesIffTextNodes(sel);
    assert Absorb(st.agg, sel, TextNodes(sel)) == st.agg by {
      NoNewNodesWhenAllProcessed(sel, st.agg.processed);
    }
    TwoLayerRequest(h.chars, w.chars, instructions);
    ProcessSucceeds(st, apiKey, instructions, sel, server, answer);
  }

  /** Two new text layers give their texts joined by a double line break and
      the count 2; a `process-text` with a valid key that the service answers
      with `answer` sends one request, posts `answer` and stores both
      settings. The request carries the two texts run together: sanitising
      removes the line breaks between the layers. */
  lemma TwoLayerScenario(h: Node, w: Node, apiKey: string, instructions: string, answer: string,
                         server: Completion.Request -> Completion.Response)
    requires h.isText && w.isText && h.id != w.id
    requires Sanitizer.IsClean(h.chars) && Sanitizer.IsClean(w.chars) && h.chars != "" && w.chars != ""
    requires Sanitizer.IsClean(instructions)
    requires Completion.ValidateApiKey(apiKey)
    requires forall q :: server(q) == Completion.HttpResponse(200, None, answer)
    ensures Update(AggState("", {}), [h, w]).text == h.chars + "\n\n" + w.chars
    ensures |TextNodes([h, w])| == 2
    ensures var r := Dispatch(SessionState(Update(AggState("", {}), [h, w]), map[], false),
                              ProcessText(apiKey, instructions), [h, w], server);
            && r.reply == Some(Processed(answer))
            && r.requests == [Completion.Request(Completion.SystemPrefix + instructions,
                                                 Completion.UserPrefix + (h.chars + w.chars))]
            && LoadSavedData(r.state.storage) == SavedData(apiKey, instructions)
  {
    TwoNewLayers(h, w);
    ProcessTwoLayers(h, w, apiKey, instructions, answer, server);
    assert ApiKeyKey != InstructionsKey;
  }

  /** After the reset to the sentinel, selecting only text layers without
      characters keeps the sentinel as the text, and a `process-text` with a
      valid key then sends the sentinel itself as the text to improve. */
  lemma SentinelSentAsText(st: SessionState, sel: seq<Node>, apiKey: string, instructions: string,
                           server: Completion.Request -> Completion.Response)
    requires IdsIdentify(sel)
    requires HasTextNodes(sel)
    requires forall n :: n in sel && n.isText ==> n.chars == ""
    requires Completion.ValidateApiKey(apiKey)
    ensures var agg := Update(AggState(Sentinel, {}), sel);
            && agg.text == Sentinel
            && Dispatch(st.(agg := agg), ProcessText(apiKey, instructions), sel, server).requests
                 == [Completion.BuildRequest(Sentinel, instructions)]
  {
    var agg := Update(AggState(Sentinel, {}), sel);
    EmptyLayersKeepSentinel(sel);
    NoNewNodesWhenAllProcessed(sel, agg.processed);
    ProcessReplyIsCompletionOutcome(st.(agg := agg), apiKey, instructions, sel, server);
  }

  /** The plugin while it runs. */
  class Session {
    const aggregator: TextAggregator
    var storage: map<string, string>
    var closed: bool

    function State(): SessionState
      reads this, aggregator
    {
      SessionState(aggregator.State(), storage, closed)
    }

    /** Plugin start, with the settings store as it was left. */
    constructor (stored: map<string, string>)
      ensures State() == SessionState(AggState("", {}), stored, false)
      ensures fresh(aggregator)
    {
      aggregator := new TextAggregator();
      storage := stored;
      closed := false;
    }

    /** The `selectionchange` handler, also run once at start. */
    method OnSelectionChange(selection: seq<Node>) returns (report: Report)
      modifies aggregator
      ensures State() == old(State()).(agg := Update(old(State()).agg, selection))
      ensures report == SelectedText(aggregator.currentText, |TextNodes(selection)|)
    {
      report := aggregator.UpdateSelectedText(selection);
    }

    /** `figma.ui.onmessage`. */
    method OnMessage(cmd: Command, selection: seq<Node>, server: Completion.Request -> Completion.Response)
      returns (reply: Option<ProcessResult>, requests: seq<Completion.Request>)
      modifies this, aggregator
      ensures var r := Dispatch(old(State()), cmd, selection, server);
              State() == r.state && reply == r.reply && requests == r.requests
    {
      reply, requests := None, [];
      match cmd {
        case Cancel =>
          closed := true;
        case ProcessText(apiKey, instructions) =>
          reply, requests := HandleProcessText(apiKey, instructions, selection, server);
        case SaveInstructions(instructions) =>
          storage := storage[InstructionsKey := instructions];
        case Unrecognised(_) =>
      }
    }

    /** The `process-text` branch of `figma.ui.onmessage`. */
    method HandleProcessText(apiKey: string, instructions: string, selection: seq<Node>, server: Completion.Request -> Completion.Response)
      returns (reply: Option<ProcessResult>, requests: seq<Completion.Request>)
      modifies this, aggregator
      ensures var r := Dispatch(old(State()), ProcessText(apiKey, instructions), selection, server);
              State() == r.state && reply == r.reply && requests == r.requests
    {
      requests := [];
      var textNodes := TextNodes(selection);
      if |textNodes| == 0 {
        reply := Some(ProcessError(NoTextLayerError));
        return;
      }
      var _ := aggregator.GetTextFromNodes(selection, textNodes);
      reply, requests := CompleteRequest(apiKey, instructions, server);
    }

    /** The awaited `callOpenAI` of `process-text` on the aggregated text, and
        what follows it. */
    method CompleteRequest(apiKey: string, instructions: string, server: Completion.Request -> Completion.Response)
      returns (reply: Option<ProcessResult>, requests: seq<Completion.Request>)
      modifies this
      ensures var r := Complete(old(State()), apiKey, instructions, server);
              State() == r.state && reply == r.reply && requests == r.requests
    {
      requests := [];
      var prepared := Completion.Prepare(aggregator.currentText, apiKey, instructions);
      if prepared.Failure? {
        reply := Some(ProcessError(prepared.error));
        return;
      }
      requests := [prepared.value];
      var outcome := Completion.Interpret(server(prepared.value));
      if outcome.Failure? {
        reply := Some(ProcessError(outcome.error));
        return;
      }
      storage := storage[ApiKeyKey := apiKey][InstructionsKey := instructions];
      reply := Some(Processed(outcome.value));
    }
  }
}

/**
 * The `useAiAnalysis` hook's run of `generateContentForAllFields`: the two state
 * cells as fields updated in place, the caller's `onFieldCompleted` callback as a
 * log object, and the remote model's answers as one scripted outcome per field.
 */
module AnalysisHook {
  import opened Wrappers
  import opened JsText
  import opened FieldOrchestration

  /** The caller's `onFieldCompleted` callback, recorded as the list of its calls. */
  class CompletionLog {
    var calls: seq<(string, string)>

    constructor ()
      ensures calls == []
    {
      calls := [];
    }

    method OnFieldCompleted(path: string, content: string)
      modifies this
      ensures calls == old(calls) + [(path, content)]
    {
      calls := calls + [(path, content)];
    }
  }

  /** The hook's state: `isAnalyzing`, `error`, and (ghost) every event a run has produced. */
  class AiAnalysis {
    var isAnalyzing: bool
    var error: Option<string>
    ghost var events: Trace

    function State(): RunState
      reads this
    {
      RunState(isAnalyzing, error)
    }

    /** `useState(false)` and `useState(null)`. */
    constructor ()
      ensures State() == RunState(false, None) && events == Nil
    {
      isAnalyzing, error := false, None;
      events := Nil;
    }

    method SetIsAnalyzing(on: bool)
      modifies this
      ensures State() == old(State()).(isAnalyzing := on)
      ensures events == Append(old(events), Cons(SetAnalyzing(on), Nil))
    {
      isAnalyzing := on;
      events := Append(events, Cons(SetAnalyzing(on), Nil));
    }

    method SetError(message: Option<string>)
      modifies this
      ensures State() == old(State()).(error := message)
      ensures events == Append(old(events), Cons(Event.SetError(message), Nil))
    {
      error := message;
      events := Append(events, Cons(Event.SetError(message), Nil));
    }

    /**
     * `generateContentForAllFields`. `responses[i]` is what processing `checklistItems[i]`
     * yields, should it be reached. Returns the message the promise rejects with, or
     * `None` when it resolves. The run produces exactly `RunEvents`, so the callback sees
     * `Completions` of it, and the state cells end idle and holding the thrown message.
     */
    method GenerateContentForAllFields(apiKey: Option<string>, checklistItems: seq<string>,
                                       responses: seq<FieldOutcome>, onFieldCompleted: CompletionLog)
      returns (thrown: Option<string>)
      requires |responses| == |checklistItems|
      modifies this, onFieldCompleted
      ensures events == Append(old(events), RunEvents(apiKey, checklistItems, responses))
      ensures onFieldCompleted.calls
           == old(onFieldCompleted.calls) + Completions(RunEvents(apiKey, checklistItems, responses))
      ensures thrown == Thrown(RunEvents(apiKey, checklistItems, responses))
      ensures State() == StateAfter(old(State()), RunEvents(apiKey, checklistItems, responses))
      ensures !isAnalyzing && error == thrown
    {
      ghost var before := events;
      RunEndsIdle(apiKey, checklistItems, responses, old(State()));
      SetIsAnalyzing(true);
      ghost var started := events;
      SetError(None);
      ghost var rest;
      if !KeyConfigured(apiKey) {
        rest := FailureTail(MISSING_KEY_MESSAGE);
        thrown := FailMissingKey();
        FailureTailFacts(MISSING_KEY_MESSAGE, RunState(true, None));
      } else {
        rest := FieldEvents(checklistItems, TrimResponses(responses), 0);
        thrown := ProcessChecklist(checklistItems, responses, onFieldCompleted);
      }
      ResetBlock(rest, old(State()));
      SnocThen(started, Event.SetError(None), rest);
      SnocThen(before, SetAnalyzing(true), Cons(Event.SetError(None), rest));
    }

    /** The missing-key branch: record the message, leave the analysing state, throw. */
    method FailMissingKey() returns (thrown: Option<string>)
      modifies this
      ensures events == Append(old(events), FailureTail(MISSING_KEY_MESSAGE))
      ensures State() == RunState(false, Some(MISSING_KEY_MESSAGE)) && thrown == Some(MISSING_KEY_MESSAGE)
    {
      thrown := RecordFailure(MISSING_KEY_MESSAGE);
    }

    /** `setError(message)`, `setIsAnalyzing(false)`, then the throw. */
    method RecordFailure(message: string) returns (thrown: Option<string>)
      modifies this
      ensures events == Append(old(events), FailureTail(message))
      ensures State() == RunState(false, Some(message)) && thrown == Some(message)
    {
      ghost var start := events;
      SetError(Some(message));
      ghost var recorded := events;
      SetIsAnalyzing(false);
      ghost var stopped := events;
      events := Append(events, Cons(Throw(message), Nil));
      thrown := Some(message);
      SnocThen(recorded, Event.SetAnalyzing(false), Cons(Throw(message), Nil));
      SnocThen(start, Event.SetError(Some(message)), Cons(Event.SetAnalyzing(false), Cons(Throw(message), Nil)));
    }

    /** The `for…of` loop over the checklist, entered with the state just reset. */
    method ProcessChecklist(checklistItems: seq<string>, responses: seq<FieldOutcome>,
                            onFieldCompleted: CompletionLog)
      returns (thrown: Option<string>)
      requires |responses| == |checklistItems|
      requires isAnalyzing && error == None
      modifies this, onFieldCompleted
      ensures events == Append(old(events), FieldEvents(checklistItems, TrimResponses(responses), 0))
      ensures onFieldCompleted.calls
           == old(onFieldCompleted.calls) + Completions(FieldEvents(checklistItems, TrimResponses(responses), 0))
      ensures thrown == Thrown(FieldEvents(checklistItems, TrimResponses(responses), 0))
      ensures !isAnalyzing && error == thrown
    {
      ghost var trimmed := TrimResponses(responses);
      AppendNil(events);
      var i := 0;
      while i < |checklistItems|
        invariant 0 <= i <= |checklistItems|
        invariant isAnalyzing && error == None
        invariant forall j :: 0 <= j < i ==> trimmed[j].Generated?
        invariant events == Append(old(events), Processed(checklistItems, trimmed, i))
        invariant onFieldCompleted.calls == old(onFieldCompleted.calls) + Reported(checklistItems, trimmed, i)
      {
        ghost var done := Processed(checklistItems, trimmed, i);
        TrimmedAt(responses, i);
        thrown := ProcessField(checklistItems[i], responses[i], onFieldCompleted);
        if thrown.Some? {
          LoopFailsAt(checklistItems, trimmed, i);
          AppendAssoc(old(events), done,
                      Cons(Attempt(checklistItems[i]), FailureTail(FailureMessage(checklistItems[i], trimmed[i].cause))));
          return;
        }
        AppendAssoc(old(events), done, FieldDone(checklistItems[i], trimmed[i].text));
        assert old(onFieldCompleted.calls) + (Reported(checklistItems, trimmed, i) + [(checklistItems[i], trimmed[i].text)])
            == (old(onFieldCompleted.calls) + Reported(checklistItems, trimmed, i)) + [(checklistItems[i], trimmed[i].text)];
        i := i + 1;
      }
      SetIsAnalyzing(false);
      LoopCompletes(checklistItems, trimmed);
      AppendAssoc(old(events), Processed(checklistItems, trimmed, i), Cons(SetAnalyzing(false), Nil));
      thrown := None;
    }

    /**
     * One iteration of the loop: announce the field, then either report the trimmed
     * text to the callback, or record the failure (the cause's own message, else the
     * generic one), leave the analysing state and hand back the message to throw.
     */
    method ProcessField(fieldPath: string, response: FieldOutcome, onFieldCompleted: CompletionLog)
      returns (thrown: Option<string>)
      modifies this, onFieldCompleted
      ensures response.Generated? ==>
        && events == Append(old(events), FieldDone(fieldPath, Trim(response.text)))
        && onFieldCompleted.calls == old(onFieldCompleted.calls) + [(fieldPath, Trim(response.text))]
        && State() == old(State()) && thrown == None
      ensures response.Failed? ==>
        var message := FailureMessage(fieldPath, response.cause);
        && events == Append(old(events), Cons(Attempt(fieldPath), FailureTail(message)))
        && onFieldCompleted.calls == old(onFieldCompleted.calls)
        && State() == RunState(false, Some(message)) && thrown == Some(message)
    {
      ghost var start := events;
      events := Append(events, Cons(Attempt(fieldPath), Nil));
      ghost var attempted := events;
      if response.Failed? {
        var errorMessage := "Error on field " + fieldPath + ".";
        if response.cause.Some? {
          errorMessage := response.cause.value;
        }
        thrown := RecordFailure(errorMessage);
        SnocThen(start, Attempt(fieldPath), FailureTail(errorMessage));
        return;
      }
      var content := Trim(response.text);
      onFieldCompleted.OnFieldCompleted(fieldPath, content);
      events := Append(events, Cons(Completed(fieldPath, content), Nil));
      thrown := None;
      SnocThen(start, Attempt(fieldPath), Cons(Completed(fieldPath, content), Nil));
    }
  }
}

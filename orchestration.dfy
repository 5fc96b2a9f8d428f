/**
 * The behaviour of `generateContentForAllFields` as a trace of observable events:
 * the writes to the two state cells, each field's attempt, each `onFieldCompleted`
 * call and the final throw. The remote model is an oracle: one scripted outcome per field.
 */
module FieldOrchestration {
  import opened Wrappers
  import opened JsText

  const MISSING_KEY_MESSAGE: string := "Gemini API key is not configured."

  /**
   * What processing one field yields: the generated text, or a thrown value, with its
   * `message` when it is an `Error` (`None` for any other thrown value).
   */
  datatype FieldOutcome = Generated(text: string) | Failed(cause: Option<string>)

  /** The hook's two state cells. */
  datatype RunState = RunState(isAnalyzing: bool, error: Option<string>)

  datatype Event =
    | SetAnalyzing(on: bool)                    // setIsAnalyzing(on)
    | SetError(message: Option<string>)         // setError(message)
    | Attempt(path: string)                     // the try block starts on this field
    | Completed(path: string, content: string)  // onFieldCompleted(path, content)
    | Throw(thrown: string)                     // the returned promise rejects with this message

  /** Events in the order they happen, earliest first. */
  datatype Trace = Nil | Cons(head: Event, tail: Trace)

  function Length(t: Trace): nat
  {
    match t
    case Nil => 0
    case Cons(_, rest) => 1 + Length(rest)
  }

  /** The event at position `n`, counting from 0. */
  function At(t: Trace, n: nat): Event
    requires n < Length(t)
  {
    if n == 0 then t.head else At(t.tail, n - 1)
  }

  /** The first `n` events (all of them when there are fewer). */
  function Take(t: Trace, n: nat): Trace
  {
    if n == 0 || t.Nil? then Nil else Cons(t.head, Take(t.tail, n - 1))
  }

  /** The events of `a`, then those of `b`. */
  function Append(a: Trace, b: Trace): Trace
  {
    match a
    case Nil => b
    case Cons(e, rest) => Cons(e, Append(rest, b))
  }

  lemma {:induction false} AppendAssoc(a: Trace, b: Trace, c: Trace)
    ensures Append(Append(a, b), c) == Append(a, Append(b, c))
  {
    match a
    case Nil =>
    case Cons(_, rest) => AppendAssoc(rest, b, c);
  }

  lemma {:induction false} AppendNil(t: Trace)
    ensures Append(t, Nil) == t
  {
    match t
    case Nil =>
    case Cons(_, rest) => AppendNil(rest);
  }

  /** Recording `e` and then `rest` is recording `Cons(e, rest)`. */
  lemma SnocThen(t: Trace, e: Event, rest: Trace)
    ensures Append(Append(t, Cons(e, Nil)), rest) == Append(t, Cons(e, rest))
  {
    AppendAssoc(t, Cons(e, Nil), rest);
  }

  /** `!API_KEY` is false exactly for a present, non-empty key. */
  predicate KeyConfigured(apiKey: Option<string>)
  {
    apiKey.Some? && apiKey.value != ""
  }

  /** The message recorded and thrown when processing a field fails. */
  function FailureMessage(fieldPath: string, cause: Option<string>): string
  {
    match cause
    case Some(message) => message
    case None => "Error on field " + fieldPath + "."
  }

  /** What the loop keeps of a generated response: its text, trimmed. */
  function TrimResponse(outcome: FieldOutcome): FieldOutcome
  {
    match outcome
    case Generated(text) => Generated(Trim(text))
    case Failed(_) => outcome
  }

  function TrimResponses(outcomes: seq<FieldOutcome>): seq<FieldOutcome>
  {
    seq(|outcomes|, i requires 0 <= i < |outcomes| => TrimResponse(outcomes[i]))
  }

  /** Trimming keeps each response's kind, and a generated one's text becomes its trimmed text. */
  lemma TrimmedAt(outcomes: seq<FieldOutcome>, i: nat)
    requires i < |outcomes|
    ensures var t := TrimResponses(outcomes)[i];
      && (t.Generated? <==> outcomes[i].Generated?)
      && (t.Generated? ==> t.text == Trim(outcomes[i].text))
      && (t.Failed? ==> t == outcomes[i])
  {
  }

  /**
   * The `for…of` loop from the field at index `i` on, followed by the final
   * `setIsAnalyzing(false)` when no field fails; `outcomes` hold the trimmed texts.
   */
  function FieldEvents(fields: seq<string>, outcomes: seq<FieldOutcome>, i: nat): Trace
    requires |outcomes| == |fields| && i <= |fields|
    decreases |fields| - i
  {
    if i == |fields| then Cons(SetAnalyzing(false), Nil)
    else
      match outcomes[i]
      case Generated(text) =>
        Cons(Attempt(fields[i]), Cons(Completed(fields[i], text), FieldEvents(fields, outcomes, i + 1)))
      case Failed(cause) =>
        var message := FailureMessage(fields[i], cause);
        Cons(Attempt(fields[i]), FailureTail(message))
  }

  /** What follows a failure: record the message, leave the analysing state, throw. */
  function FailureTail(message: string): Trace
  {
    Cons(SetError(Some(message)), Cons(SetAnalyzing(false), Cons(Throw(message), Nil)))
  }

  /** One whole run: reset the state, check the key, then the loop. */
  function RunEvents(apiKey: Option<string>, fields: seq<string>, outcomes: seq<FieldOutcome>): Trace
    requires |outcomes| == |fields|
  {
    Cons(SetAnalyzing(true), Cons(SetError(None),
      if !KeyConfigured(apiKey) then FailureTail(MISSING_KEY_MESSAGE)
      else FieldEvents(fields, TrimResponses(outcomes), 0)))
  }

  // ---- What an observer sees of a trace ----

  /** The calls of `onFieldCompleted`, in order. */
  function Completions(t: Trace): seq<(string, string)>
  {
    match t
    case Nil => []
    case Cons(e, rest) => if e.Completed? then [(e.path, e.content)] + Completions(rest) else Completions(rest)
  }

  /** The fields whose processing started, in order. */
  function Attempts(t: Trace): seq<string>
  {
    match t
    case Nil => []
    case Cons(e, rest) => if e.Attempt? then [e.path] + Attempts(rest) else Attempts(rest)
  }

  /** The message the run rejects with, if it throws. */
  function Thrown(t: Trace): Option<string>
  {
    match t
    case Nil => None
    case Cons(e, rest) => if e.Throw? then Some(e.thrown) else Thrown(rest)
  }

  function Step(s: RunState, e: Event): RunState
  {
    match e
    case SetAnalyzing(on) => s.(isAnalyzing := on)
    case SetError(message) => s.(error := message)
    case _ => s
  }

  /** The state cells after the events, starting from `s`. */
  function StateAfter(s: RunState, t: Trace): RunState
    decreases t
  {
    match t
    case Nil => s
    case Cons(e, rest) => StateAfter(Step(s, e), rest)
  }

  /** Attempts and reports leave both state cells as they are. */
  predicate Inert(e: Event)
  {
    e.Attempt? || e.Completed?
  }

  /** The two events of a field whose text was generated. */
  function FieldDone(path: string, text: string): Trace
  {
    Cons(Attempt(path), Cons(Completed(path, text), Nil))
  }

  lemma {:induction false} CompletionsAppend(a: Trace, b: Trace)
    ensures Completions(Append(a, b)) == Completions(a) + Completions(b)
  {
    match a
    case Nil =>
      assert [] + Completions(b) == Completions(b);
    case Cons(e, rest) =>
      CompletionsAppend(rest, b);
      if e.Completed? {
        assert [(e.path, e.content)] + (Completions(rest) + Completions(b))
            == ([(e.path, e.content)] + Completions(rest)) + Completions(b);
      }
  }

  lemma {:induction false} ThrownAppend(a: Trace, b: Trace)
    ensures Thrown(Append(a, b)) == if Thrown(a).Some? then Thrown(a) else Thrown(b)
  {
    match a
    case Nil =>
    case Cons(_, rest) => ThrownAppend(rest, b);
  }

  // ---- The fixed pieces of a trace, seen through each projection ----

  /** A generated field is one attempt and one report, and neither touches the state cells. */
  lemma GeneratedBlock(path: string, text: string, rest: Trace, s: RunState)
    ensures var b := Cons(Attempt(path), Cons(Completed(path, text), rest));
      && b == Append(FieldDone(path, text), rest)
      && Length(b) == 2 + Length(rest)
      && At(b, 0) == Attempt(path) && At(b, 1) == Completed(path, text)
      && Completions(b) == [(path, text)] + Completions(rest)
      && Attempts(b) == [path] + Attempts(rest)
      && Thrown(b) == Thrown(rest)
      && StateAfter(s, b) == StateAfter(s, rest)
  {
    var c := Cons(Completed(path, text), rest);
    assert Append(Cons(Completed(path, text), Nil), rest) == c;
    assert Completions(c) == [(path, text)] + Completions(rest);
  }

  /**
   * The end of a failed run records the message, leaves the analysing state and
   * throws last; it attempts and reports nothing.
   */
  lemma FailureTailFacts(message: string, s: RunState)
    ensures var f := FailureTail(message);
      && Length(f) == 3
      && Completions(f) == [] && Attempts(f) == []
      && Thrown(f) == Some(message)
      && StateAfter(s, f) == RunState(false, Some(message))
      && (forall n :: 0 <= n < 3 ==> !Inert(At(f, n)) && (At(f, n).Throw? <==> n == 2))
  {
    var last := Cons(Throw(message), Nil);
    assert Completions(last) == Completions(Nil) == [];
    assert Attempts(last) == Attempts(Nil) == [];
    assert Length(last) == 1;
    assert StateAfter(RunState(false, Some(message)), last) == RunState(false, Some(message));
    var second := Cons(SetAnalyzing(false), last);
    assert Length(second) == 2;
    assert Completions(second) == Completions(last);
    assert Attempts(second) == Attempts(last);
    assert Thrown(second) == Thrown(last) == Some(message);
    assert At(second, 1) == At(last, 0) == Throw(message);
    assert StateAfter(RunState(s.isAnalyzing, Some(message)), second) == RunState(false, Some(message));
  }

  /** The reset that starts every run sets both state cells and attempts, reports and throws nothing. */
  lemma ResetBlock(x: Trace, s: RunState)
    ensures var r := Cons(SetAnalyzing(true), Cons(SetError(None), x));
      && Length(r) == 2 + Length(x)
      && Take(r, 2) == Cons(SetAnalyzing(true), Cons(SetError(None), Nil))
      && Completions(r) == Completions(x) && Attempts(r) == Attempts(x) && Thrown(r) == Thrown(x)
      && StateAfter(s, r) == StateAfter(RunState(true, None), x)
  {
    var second := Cons(SetError(None), x);
    assert Take(second, 1) == Cons(SetError(None), Nil);
  }

  /** Past its first two events, a trace is the rest of it shifted by two. */
  lemma PastTwo(first: Event, second: Event, rest: Trace, n: nat)
    requires 2 <= n
    ensures var t := Cons(first, Cons(second, rest));
      && Length(t) == 2 + Length(rest)
      && Take(t, n) == Cons(first, Cons(second, Take(rest, n - 2)))
      && (n < Length(t) ==> At(t, n) == At(rest, n - 2))
  {
    var tail := Cons(second, rest);
    assert Take(tail, n - 1) == Cons(second, Take(rest, n - 2));
    if n < Length(Cons(first, tail)) {
      assert At(tail, n - 1) == At(rest, n - 2);
    }
  }

  /** Position `n` of a run seen past its two reset events. */
  lemma ResetAt(x: Trace, s: RunState, n: nat)
    requires n < 2 + Length(x)
    ensures var r := Cons(SetAnalyzing(true), Cons(SetError(None), x));
      && n < Length(r)
      && (n < 2 ==> !Inert(At(r, n)) && !At(r, n).Throw?)
      && (2 <= n ==>
            && At(r, n) == At(x, n - 2)
            && StateAfter(s, Take(r, n)) == StateAfter(RunState(true, None), Take(x, n - 2)))
  {
    ResetBlock(x, s);
    if 2 <= n {
      PastTwo(SetAnalyzing(true), SetError(None), x, n);
      ResetBlock(Take(x, n - 2), s);
    }
  }

  // ---- The loop part-way through ----

  /** The events of the first `i` fields, when each of them was generated. */
  function Processed(fields: seq<string>, outcomes: seq<FieldOutcome>, i: nat): Trace
    requires |outcomes| == |fields| && i <= |fields|
    requires forall j :: 0 <= j < i ==> outcomes[j].Generated?
  {
    if i == 0 then Nil
    else Append(Processed(fields, outcomes, i - 1), FieldDone(fields[i - 1], outcomes[i - 1].text))
  }

  /** The calls of `onFieldCompleted` for the first `i` fields, when each of them was generated. */
  function Reported(fields: seq<string>, outcomes: seq<FieldOutcome>, i: nat): seq<(string, string)>
    requires |outcomes| == |fields| && i <= |fields|
    requires forall j :: 0 <= j < i ==> outcomes[j].Generated?
  {
    if i == 0 then [] else Reported(fields, outcomes, i - 1) + [(fields[i - 1], outcomes[i - 1].text)]
  }

  lemma {:induction false} ProcessedReported(fields: seq<string>, outcomes: seq<FieldOutcome>, i: nat)
    requires |outcomes| == |fields| && i <= |fields|
    requires forall j :: 0 <= j < i ==> outcomes[j].Generated?
    ensures Completions(Processed(fields, outcomes, i)) == Reported(fields, outcomes, i)
    ensures Thrown(Processed(fields, outcomes, i)) == None
  {
    if i > 0 {
      var path, text := fields[i - 1], outcomes[i - 1].text;
      ProcessedReported(fields, outcomes, i - 1);
      GeneratedBlock(path, text, Nil, RunState(false, None));
      CompletionsAppend(Processed(fields, outcomes, i - 1), FieldDone(path, text));
      ThrownAppend(Processed(fields, outcomes, i - 1), FieldDone(path, text));
    }
  }

  /** The whole loop is the fields already processed followed by the loop from `i` on. */
  lemma {:induction false} JoinEvents(fields: seq<string>, outcomes: seq<FieldOutcome>, i: nat)
    requires |outcomes| == |fields| && i <= |fields|
    requires forall j :: 0 <= j < i ==> outcomes[j].Generated?
    ensures FieldEvents(fields, outcomes, 0) == Append(Processed(fields, outcomes, i), FieldEvents(fields, outcomes, i))
  {
    if i > 0 {
      var path, text := fields[i - 1], outcomes[i - 1].text;
      JoinEvents(fields, outcomes, i - 1);
      GeneratedBlock(path, text, FieldEvents(fields, outcomes, i), RunState(false, None));
      AppendAssoc(Processed(fields, outcomes, i - 1), FieldDone(path, text), FieldEvents(fields, outcomes, i));
    }
  }

  /** The loop stops at field `i`, the first that fails: what it did, seen whole. */
  lemma LoopFailsAt(fields: seq<string>, outcomes: seq<FieldOutcome>, i: nat)
    requires |outcomes| == |fields| && i < |fields|
    requires forall j :: 0 <= j < i ==> outcomes[j].Generated?
    requires outcomes[i].Failed?
    ensures var message := FailureMessage(fields[i], outcomes[i].cause);
      var loop := FieldEvents(fields, outcomes, 0);
      && loop == Append(Processed(fields, outcomes, i), Cons(Attempt(fields[i]), FailureTail(message)))
      && Completions(loop) == Reported(fields, outcomes, i)
      && Thrown(loop) == Some(message)
  {
    var rest := FieldEvents(fields, outcomes, i);
    FailureTailFacts(FailureMessage(fields[i], outcomes[i].cause), RunState(false, None));
    JoinEvents(fields, outcomes, i);
    ProcessedReported(fields, outcomes, i);
    CompletionsAppend(Processed(fields, outcomes, i), rest);
    ThrownAppend(Processed(fields, outcomes, i), rest);
  }

  /** The loop ran through every field: what it did, seen whole. */
  lemma LoopCompletes(fields: seq<string>, outcomes: seq<FieldOutcome>)
    requires |outcomes| == |fields|
    requires forall j :: 0 <= j < |fields| ==> outcomes[j].Generated?
    ensures var loop := FieldEvents(fields, outcomes, 0);
      && loop == Append(Processed(fields, outcomes, |fields|), Cons(SetAnalyzing(false), Nil))
      && Completions(loop) == Reported(fields, outcomes, |fields|)
      && Thrown(loop) == None
  {
    var rest := FieldEvents(fields, outcomes, |fields|);
    JoinEvents(fields, outcomes, |fields|);
    ProcessedReported(fields, outcomes, |fields|);
    CompletionsAppend(Processed(fields, outcomes, |fields|), rest);
    ThrownAppend(Processed(fields, outcomes, |fields|), rest);
  }

  // ---- Properties of a run ----

  /**
   * Every run ends with `isAnalyzing` false and `error` holding exactly the message
   * it throws (or null when it does not throw), whatever the state before the run.
   */
  lemma RunEndsIdle(apiKey: Option<string>, fields: seq<string>, outcomes: seq<FieldOutcome>, s: RunState)
    requires |outcomes| == |fields|
    ensures var events := RunEvents(apiKey, fields, outcomes);
      StateAfter(s, events) == RunState(false, Thrown(events))
  {
    if KeyConfigured(apiKey) {
      ResetBlock(FieldEvents(fields, TrimResponses(outcomes), 0), s);
      FieldEventsEndIdle(fields, TrimResponses(outcomes), 0);
    } else {
      ResetBlock(FailureTail(MISSING_KEY_MESSAGE), s);
      FailureTailFacts(MISSING_KEY_MESSAGE, RunState(true, None));
    }
  }

  lemma {:induction false} FieldEventsEndIdle(fields: seq<string>, outcomes: seq<FieldOutcome>, i: nat)
    requires |outcomes| == |fields| && i <= |fields|
    ensures StateAfter(RunState(true, None), FieldEvents(fields, outcomes, i))
         == RunState(false, Thrown(FieldEvents(fields, outcomes, i)))
    decreases |fields| - i
  {
    if i < |fields| {
      match outcomes[i]
      case Generated(text) =>
        GeneratedBlock(fields[i], text, FieldEvents(fields, outcomes, i + 1), RunState(true, None));
        FieldEventsEndIdle(fields, outcomes, i + 1);
      case Failed(cause) =>
        FailureTailFacts(FailureMessage(fields[i], cause), RunState(true, None));
    }
  }

  /**
   * The run's first two events reset both cells, and every attempt and every report
   * happens while `isAnalyzing` is true and `error` is null, so an earlier run's error
   * is cleared before any field is processed.
   */
  lemma ActiveWhileProcessing(apiKey: Option<string>, fields: seq<string>, outcomes: seq<FieldOutcome>,
                              s: RunState, n: nat)
    requires |outcomes| == |fields|
    requires n < Length(RunEvents(apiKey, fields, outcomes))
    ensures var events := RunEvents(apiKey, fields, outcomes);
      && Take(events, 2) == Cons(SetAnalyzing(true), Cons(SetError(None), Nil))
      && (Inert(At(events, n)) ==> StateAfter(s, Take(events, n)) == RunState(true, None))
  {
    var x := if !KeyConfigured(apiKey) then FailureTail(MISSING_KEY_MESSAGE)
             else FieldEvents(fields, TrimResponses(outcomes), 0);
    ResetBlock(x, s);
    ResetAt(x, s, n);
    if 2 <= n {
      if KeyConfigured(apiKey) {
        InertBefore(fields, TrimResponses(outcomes), 0, n - 2, RunState(true, None));
      } else {
        FailureTailFacts(MISSING_KEY_MESSAGE, s);
      }
    }
  }

  /** Up to an attempt or a report, the loop has changed neither state cell. */
  lemma {:induction false} InertBefore(fields: seq<string>, outcomes: seq<FieldOutcome>, i: nat, n: nat, s: RunState)
    requires |outcomes| == |fields| && i <= |fields|
    requires n < Length(FieldEvents(fields, outcomes, i))
    ensures var events := FieldEvents(fields, outcomes, i);
      Inert(At(events, n)) ==> StateAfter(s, Take(events, n)) == s
    decreases |fields| - i
  {
    if i < |fields| {
      match outcomes[i]
      case Generated(text) =>
        var rest := FieldEvents(fields, outcomes, i + 1);
        GeneratedBlock(fields[i], text, rest, s);
        if 2 <= n {
          PastTwo(Attempt(fields[i]), Completed(fields[i], text), rest, n);
          InertBefore(fields, outcomes, i + 1, n - 2, s);
          GeneratedBlock(fields[i], text, Take(rest, n - 2), s);
        }
      case Failed(cause) =>
        var tail := FailureTail(FailureMessage(fields[i], cause));
        FailureTailFacts(FailureMessage(fields[i], cause), s);
        if 1 <= n {
          assert At(Cons(Attempt(fields[i]), tail), n) == At(tail, n - 1);
        }
    }
  }

  /** Nothing happens after the throw: a throw, when there is one, is the run's last event. */
  lemma ThrowIsLast(apiKey: Option<string>, fields: seq<string>, outcomes: seq<FieldOutcome>, n: nat)
    requires |outcomes| == |fields|
    requires n < Length(RunEvents(apiKey, fields, outcomes))
    ensures var events := RunEvents(apiKey, fields, outcomes);
      At(events, n).Throw? ==> n == Length(events) - 1
  {
    var x := if !KeyConfigured(apiKey) then FailureTail(MISSING_KEY_MESSAGE)
             else FieldEvents(fields, TrimResponses(outcomes), 0);
    ResetBlock(x, RunState(false, None));
    ResetAt(x, RunState(false, None), n);
    if 2 <= n {
      if KeyConfigured(apiKey) {
        FieldThrowIsLast(fields, TrimResponses(outcomes), 0, n - 2);
      } else {
        FailureTailFacts(MISSING_KEY_MESSAGE, RunState(false, None));
      }
    }
  }

  lemma {:induction false} FieldThrowIsLast(fields: seq<string>, outcomes: seq<FieldOutcome>, i: nat, n: nat)
    requires |outcomes| == |fields| && i <= |fields|
    requires n < Length(FieldEvents(fields, outcomes, i))
    ensures var events := FieldEvents(fields, outcomes, i);
      At(events, n).Throw? ==> n == Length(events) - 1
    decreases |fields| - i
  {
    if i < |fields| {
      match outcomes[i]
      case Generated(text) =>
        GeneratedBlock(fields[i], text, FieldEvents(fields, outcomes, i + 1), RunState(false, None));
        if 2 <= n {
          PastTwo(Attempt(fields[i]), Completed(fields[i], text), FieldEvents(fields, outcomes, i + 1), n);
          FieldThrowIsLast(fields, outcomes, i + 1, n - 2);
        }
      case Failed(cause) =>
        var tail := FailureTail(FailureMessage(fields[i], cause));
        FailureTailFacts(FailureMessage(fields[i], cause), RunState(false, None));
        if 1 <= n {
          assert At(Cons(Attempt(fields[i]), tail), n) == At(tail, n - 1);
        }
    }
  }

  /**
   * With the key configured and the first `k` fields generated, the first `k` calls
   * of `onFieldCompleted` report those fields, in checklist order, each with its
   * response text trimmed.
   */
  lemma ReportsInOrder(apiKey: Option<string>, fields: seq<string>, outcomes: seq<FieldOutcome>, k: nat)
    requires |outcomes| == |fields| && KeyConfigured(apiKey) && k <= |fields|
    requires forall i :: 0 <= i < k ==> outcomes[i].Generated?
    ensures var calls := Completions(RunEvents(apiKey, fields, outcomes));
      && k <= |calls|
      && forall i :: 0 <= i < k ==> calls[i] == (fields[i], Trim(outcomes[i].text))
  {
    var trimmed := TrimResponses(outcomes);
    var loop := FieldEvents(fields, trimmed, 0);
    ResetBlock(loop, RunState(false, None));
    forall m | 0 <= m < k ensures trimmed[m].Generated? {
      TrimmedAt(outcomes, m);
    }
    if k > 0 {
      ReportedAt(fields, trimmed, 0, k - 1);
    }
    forall i | 0 <= i < k ensures Completions(loop)[i] == (fields[i], Trim(outcomes[i].text)) {
      ReportedAt(fields, trimmed, 0, i);
      TrimmedAt(outcomes, i);
    }
  }

  /**
   * When the fields from `i` up to `j` are all generated, the loop from `i` on
   * reports field `j`, with its text, as its call number `j - i`.
   */
  lemma {:induction false} ReportedAt(fields: seq<string>, outcomes: seq<FieldOutcome>, i: nat, j: nat)
    requires |outcomes| == |fields| && i <= j < |fields|
    requires forall m :: i <= m <= j ==> outcomes[m].Generated?
    ensures var done := Completions(FieldEvents(fields, outcomes, i));
      j - i < |done| && done[j - i] == (fields[j], outcomes[j].text)
    decreases j - i
  {
    var later := FieldEvents(fields, outcomes, i + 1);
    GeneratedBlock(fields[i], outcomes[i].text, later, RunState(false, None));
    if i < j {
      ReportedAt(fields, outcomes, i + 1, j);
      assert Completions(FieldEvents(fields, outcomes, i))[j - i] == Completions(later)[j - (i + 1)];
    }
  }

  /**
   * With the key configured and every field generated, `onFieldCompleted` is called
   * exactly once per field, in checklist order, with the field's trimmed text;
   * every field is attempted; nothing is thrown; the state ends idle with no error.
   */
  lemma AllFieldsSucceed(apiKey: Option<string>, fields: seq<string>, outcomes: seq<FieldOutcome>, s: RunState)
    requires |outcomes| == |fields| && KeyConfigured(apiKey)
    requires forall i :: 0 <= i < |outcomes| ==> outcomes[i].Generated?
    ensures var events := RunEvents(apiKey, fields, outcomes);
      && |Completions(events)| == |fields|
      && (forall i :: 0 <= i < |fields| ==> Completions(events)[i] == (fields[i], Trim(outcomes[i].text)))
      && Attempts(events) == fields
      && Thrown(events) == None
      && StateAfter(s, events) == RunState(false, None)
  {
    var trimmed := TrimResponses(outcomes);
    forall j | 0 <= j < |trimmed| ensures trimmed[j].Generated? {
      TrimmedAt(outcomes, j);
    }
    ResetBlock(FieldEvents(fields, trimmed, 0), s);
    AllReportedCount(fields, trimmed, 0);
    ReportsInOrder(apiKey, fields, outcomes, |fields|);
    AllAttempted(fields, trimmed, 0);
    NoneThrown(fields, trimmed, 0);
    RunEndsIdle(apiKey, fields, outcomes, s);
  }

  /** With every field from `i` on generated, the loop from `i` on reports each of them once. */
  lemma {:induction false} AllReportedCount(fields: seq<string>, outcomes: seq<FieldOutcome>, i: nat)
    requires |outcomes| == |fields| && i <= |fields|
    requires forall j :: i <= j < |outcomes| ==> outcomes[j].Generated?
    ensures |Completions(FieldEvents(fields, outcomes, i))| == |fields| - i
    decreases |fields| - i
  {
    if i < |fields| {
      GeneratedBlock(fields[i], outcomes[i].text, FieldEvents(fields, outcomes, i + 1), RunState(false, None));
      AllReportedCount(fields, outcomes, i + 1);
    }
  }

  /** With every field from `i` on generated, the loop from `i` on attempts exactly those fields. */
  lemma {:induction false} AllAttempted(fields: seq<string>, outcomes: seq<FieldOutcome>, i: nat)
    requires |outcomes| == |fields| && i <= |fields|
    requires forall j :: i <= j < |outcomes| ==> outcomes[j].Generated?
    ensures Attempts(FieldEvents(fields, outcomes, i)) == fields[i..]
    decreases |fields| - i
  {
    if i < |fields| {
      GeneratedBlock(fields[i], outcomes[i].text, FieldEvents(fields, outcomes, i + 1), RunState(false, None));
      AllAttempted(fields, outcomes, i + 1);
      assert fields[i..] == [fields[i]] + fields[i + 1..];
    }
  }

  /** With every field from `i` on generated, the loop from `i` on throws nothing. */
  lemma {:induction false} NoneThrown(fields: seq<string>, outcomes: seq<FieldOutcome>, i: nat)
    requires |outcomes| == |fields| && i <= |fields|
    requires forall j :: i <= j < |outcomes| ==> outcomes[j].Generated?
    ensures Thrown(FieldEvents(fields, outcomes, i)) == None
    decreases |fields| - i
  {
    if i < |fields| {
      GeneratedBlock(fields[i], outcomes[i].text, FieldEvents(fields, outcomes, i + 1), RunState(false, None));
      NoneThrown(fields, outcomes, i + 1);
    }
  }

  /**
   * With the key configured and the first failure at field `k`: `onFieldCompleted` is
   * called for the `k` fields before it, in order and with their trimmed texts, and no others;
   * fields `0..k` are attempted and none after; the run throws the failure message (the
   * thrown `Error`'s message, or a generic one naming the field), and `error` ends
   * holding that same message.
   */
  lemma FirstFailureStops(apiKey: Option<string>, fields: seq<string>, outcomes: seq<FieldOutcome>,
                          k: nat, s: RunState)
    requires |outcomes| == |fields| && KeyConfigured(apiKey)
    requires k < |fields| && outcomes[k].Failed?
    requires forall i :: 0 <= i < k ==> outcomes[i].Generated?
    ensures var events := RunEvents(apiKey, fields, outcomes);
      var message := match outcomes[k].cause
        case Some(m) => m
        case None => "Error on field " + fields[k] + ".";
      && |Completions(events)| == k
      && (forall i :: 0 <= i < k ==> Completions(events)[i] == (fields[i], Trim(outcomes[i].text)))
      && Attempts(events) == fields[..k + 1]
      && Thrown(events) == Some(message)
      && StateAfter(s, events) == RunState(false, Some(message))
  {
    var trimmed := TrimResponses(outcomes);
    forall j | 0 <= j < k ensures trimmed[j].Generated? {
      TrimmedAt(outcomes, j);
    }
    TrimmedAt(outcomes, k);
    ResetBlock(FieldEvents(fields, trimmed, 0), s);
    StopsAtCount(fields, trimmed, 0, k);
    ReportsInOrder(apiKey, fields, outcomes, k);
    StopsAtAttempts(fields, trimmed, 0, k);
    StopsAtThrown(fields, trimmed, 0, k);
    RunEndsIdle(apiKey, fields, outcomes, s);
  }

  /** The first failure from `i` on, at `k`, ends the reports: only the fields before it are reported. */
  lemma {:induction false} StopsAtCount(fields: seq<string>, outcomes: seq<FieldOutcome>, i: nat, k: nat)
    requires |outcomes| == |fields| && i <= k < |fields| && outcomes[k].Failed?
    requires forall j :: i <= j < k ==> outcomes[j].Generated?
    ensures |Completions(FieldEvents(fields, outcomes, i))| == k - i
    decreases k - i
  {
    if i < k {
      GeneratedBlock(fields[i], outcomes[i].text, FieldEvents(fields, outcomes, i + 1), RunState(false, None));
      StopsAtCount(fields, outcomes, i + 1, k);
    } else {
      FailureTailFacts(FailureMessage(fields[k], outcomes[k].cause), RunState(false, None));
    }
  }

  /** The first failure from `i` on, at `k`, is the last field attempted. */
  lemma {:induction false} StopsAtAttempts(fields: seq<string>, outcomes: seq<FieldOutcome>, i: nat, k: nat)
    requires |outcomes| == |fields| && i <= k < |fields| && outcomes[k].Failed?
    requires forall j :: i <= j < k ==> outcomes[j].Generated?
    ensures Attempts(FieldEvents(fields, outcomes, i)) == fields[i..k + 1]
    decreases k - i
  {
    if i < k {
      GeneratedBlock(fields[i], outcomes[i].text, FieldEvents(fields, outcomes, i + 1), RunState(false, None));
      StopsAtAttempts(fields, outcomes, i + 1, k);
      assert fields[i..k + 1] == [fields[i]] + fields[i + 1..k + 1];
    } else {
      FailureTailFacts(FailureMessage(fields[k], outcomes[k].cause), RunState(false, None));
      assert fields[i..k + 1] == [fields[i]];
    }
  }

  /** The first failure from `i` on, at `k`, is what the loop throws. */
  lemma {:induction false} StopsAtThrown(fields: seq<string>, outcomes: seq<FieldOutcome>, i: nat, k: nat)
    requires |outcomes| == |fields| && i <= k < |fields| && outcomes[k].Failed?
    requires forall j :: i <= j < k ==> outcomes[j].Generated?
    ensures Thrown(FieldEvents(fields, outcomes, i)) == Some(FailureMessage(fields[k], outcomes[k].cause))
    decreases k - i
  {
    if i < k {
      GeneratedBlock(fields[i], outcomes[i].text, FieldEvents(fields, outcomes, i + 1), RunState(false, None));
      StopsAtThrown(fields, outcomes, i + 1, k);
    } else {
      FailureTailFacts(FailureMessage(fields[k], outcomes[k].cause), RunState(false, None));
    }
  }

  /**
   * Without a key the run records and throws the missing-key message, attempts no
   * field and calls `onFieldCompleted` never, whatever the checklist and the outcomes.
   */
  lemma MissingKeyFailsFast(apiKey: Option<string>, fields: seq<string>, outcomes: seq<FieldOutcome>, s: RunState)
    requires |outcomes| == |fields| && !KeyConfigured(apiKey)
    ensures var events := RunEvents(apiKey, fields, outcomes);
      && Completions(events) == []
      && Attempts(events) == []
      && Thrown(events) == Some(MISSING_KEY_MESSAGE)
      && StateAfter(s, events) == RunState(false, Some(MISSING_KEY_MESSAGE))
  {
    ResetBlock(FailureTail(MISSING_KEY_MESSAGE), s);
    FailureTailFacts(MISSING_KEY_MESSAGE, RunState(true, None));
  }

  /** With the key configured and an empty checklist, nothing is attempted or reported and the run ends clean. */
  lemma EmptyChecklist(apiKey: Option<string>, s: RunState)
    requires KeyConfigured(apiKey)
    ensures var events := RunEvents(apiKey, [], []);
      && Completions(events) == []
      && Attempts(events) == []
      && Thrown(events) == None
      && StateAfter(s, events) == RunState(false, None)
  {
    ResetBlock(FieldEvents([], [], 0), s);
  }
}

/**
 The calculator's submit pipeline and keydown handler over one state value:
 the display buffer, the in-memory history and the local store. Evaluating
 the expression, turning a number into display text, and reading the clock
 are parameters: `evaluate`, `render` and `now`.
 */
module Calculator {
  import opened Display
  import opened Keyboard
  import opened Histories
  import opened BoundedLog

  /** An IEEE-754 double, as far as the result check looks at it. */
  datatype Double = Finite(value: real) | NaN | Infinity(negative: bool)

  /** The outcome of evaluating an expression: a thrown error (a syntax error
      on malformed input), or a value, given as its numeric coercion. */
  datatype Evaluation = Threw | Returned(number: Double)

  /** Why a submit was rejected; all three end in the same error display. */
  datatype Failure = DisallowedCharacter | EvaluationThrew | InvalidOperation

  /** What a submit did: nothing, showed a result, or showed the error text
      with `restore` captured as the text the display is later reset to. */
  datatype Outcome = Unchanged | Shown(result: real) | Failed(reason: Failure, restore: string)

  datatype Calc = Calc(display: string, history: seq<Entry>, store: Store)

  datatype Submission = Submission(state: Calc, outcome: Outcome)

  predicate IsNaN(d: Double) {
    d.NaN?
  }

  predicate IsFinite(d: Double) {
    d.Finite?
  }

  /** Whether the normalised display evaluates to a finite number. */
  predicate EvaluatesFinite(c: Calc, evaluate: string -> Evaluation) {
    var e := Normalise(c.display);
    evaluate(e).Returned? && evaluate(e).number.Finite?
  }

  /** Submitting the display: normalise the glyphs, ignore an empty buffer,
      reject characters outside the whitelist, evaluate, reject a value that is
      not a finite number, otherwise record the expression and show the value. */
  function Calculate(c: Calc, evaluate: string -> Evaluation, render: real -> string, now: string): (s: Submission)
    ensures s.outcome == Unchanged <==> c.display == ""
    ensures s.outcome == Unchanged ==> s.state == c
    ensures (s.outcome.Failed? && s.outcome.reason == DisallowedCharacter)
            <==> (c.display != "" && !PassesWhitelist(Normalise(c.display)))
    ensures (s.outcome.Failed? && s.outcome.reason == EvaluationThrew)
            <==> (c.display != "" && PassesWhitelist(Normalise(c.display)) && evaluate(Normalise(c.display)).Threw?)
    ensures (s.outcome.Failed? && s.outcome.reason == InvalidOperation)
            <==> (c.display != "" && PassesWhitelist(Normalise(c.display))
                  && evaluate(Normalise(c.display)).Returned? && !evaluate(Normalise(c.display)).number.Finite?)
    ensures s.outcome.Failed? ==> s.state == c.(display := ErrorText) && s.outcome.restore == Normalise(c.display)
    ensures s.outcome.Shown?
            <==> (c.display != "" && PassesWhitelist(Normalise(c.display)) && EvaluatesFinite(c, evaluate))
    ensures s.outcome.Shown? ==>
              var e := Normalise(c.display);
              && evaluate(e) == Returned(Finite(s.outcome.result))
              && s.state.display == render(s.outcome.result)
              && |s.state.history| == Min(|c.history| + 1, CalculatorCap)
              && s.state.history[0] == Calculation(e, s.outcome.result, now)
              && s.state.history[1..] == c.history[..|s.state.history| - 1]
              && CalculatorKey in s.state.store
              && s.state.store[CalculatorKey] == s.state.history
              && s.state.store.Keys == c.store.Keys + {CalculatorKey}
              && forall k :: k in c.store && k != CalculatorKey ==> k in s.state.store && s.state.store[k] == c.store[k]
  {
    var expression := Normalise(c.display);
    if expression == [] then Submission(c, Unchanged)
    else if ContainsDisallowed(expression) then
      Submission(c.(display := ErrorText), Failed(DisallowedCharacter, expression))
    else
      match evaluate(expression)
      case Threw => Submission(c.(display := ErrorText), Failed(EvaluationThrew, expression))
      case Returned(n) =>
        if IsNaN(n) || !IsFinite(n) then
          Submission(c.(display := ErrorText), Failed(InvalidOperation, expression))
        else
          var saved := SaveToHistory(c.history, c.store, expression, n.value, now);
          Submission(Calc(render(n.value), saved.history, saved.store), Shown(n.value))
  }

  /** The keydown handler: Enter submits, every other key edits the display. */
  function KeyDown(c: Calc, key: string, evaluate: string -> Evaluation, render: real -> string, now: string): (r: Calc)
    ensures key != "Enter" ==> r == c.(display := EditDisplay(c.display, key))
    ensures key == "Enter" ==> r == Calculate(c, evaluate, render, now).state
  {
    match ClassifyKey(key)
    case Submit => Calculate(c, evaluate, render, now).state
    case a => c.(display := ApplyEdit(c.display, a))
  }

  /** A run of keydown events, in order, all stamped with the same clock reading. */
  function Replay(c: Calc, keys: seq<string>, evaluate: string -> Evaluation, render: real -> string, now: string): Calc
    decreases |keys|
  {
    if keys == [] then c else Replay(KeyDown(c, keys[0], evaluate, render, now), keys[1..], evaluate, render, now)
  }

  /** Typing without submitting keeps the buffer inside the whitelist once
      normalised, and touches neither the history nor the store. */
  lemma {:induction false} TypingKeepsWhitelist(c: Calc, keys: seq<string>, evaluate: string -> Evaluation,
                                               render: real -> string, now: string)
    requires PassesWhitelist(Normalise(c.display))
    requires forall i :: 0 <= i < |keys| ==> keys[i] != "Enter"
    ensures var r := Replay(c, keys, evaluate, render, now);
      PassesWhitelist(Normalise(r.display)) && r.history == c.history && r.store == c.store
    decreases |keys|
  {
    if keys != [] {
      EditKeepsWhitelist(c.display, keys[0]);
      TypingKeepsWhitelist(KeyDown(c, keys[0], evaluate, render, now), keys[1..], evaluate, render, now);
    }
  }

  /** A buffer typed from an empty display is never rejected for its
      characters: a submit either does nothing (empty buffer) or reaches the
      evaluation. */
  lemma TypedBufferReachesEvaluation(c: Calc, keys: seq<string>, evaluate: string -> Evaluation,
                                     render: real -> string, now: string)
    requires c.display == ""
    requires forall i :: 0 <= i < |keys| ==> keys[i] != "Enter"
    ensures var s := Calculate(Replay(c, keys, evaluate, render, now), evaluate, render, now);
      !(s.outcome.Failed? && s.outcome.reason == DisallowedCharacter)
  {
    TypingKeepsWhitelist(c, keys, evaluate, render, now);
  }

  /** Submitting again while the error text is shown rejects it for its
      characters, and captures the error text itself as the text to restore. */
  lemma ResubmitDuringError(c: Calc, evaluate: string -> Evaluation, render: real -> string, now: string)
    requires c.display == ErrorText
    ensures Calculate(c, evaluate, render, now) == Submission(c, Failed(DisallowedCharacter, ErrorText))
  {
    assert !Allowed(ErrorText[0]);
    NormaliseFixesCanonical(ErrorText);
  }
}

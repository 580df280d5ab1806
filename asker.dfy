/**
  pkg/maker/asker.go: asking the questions of `.starter.yml`, taking a value given on the
  command line when it is valid, and otherwise prompting until the answer is valid.
 */
module Asker {
  import opened Wrappers
  import opened StarterConfig
  import opened Terminal
  import Vars

  /**
    A regular-expression engine: which patterns compile, and whether a compiled pattern
    matches a string (`Regexp.MatchString`, anchors included). The engine itself is not
    part of this model.
   */
  datatype Engine = Engine(compiles: string -> bool, matches: (string, string) -> bool)

  function ParseError(q: Question): string {
    "unable to parse regexp for variable " + q.name + ", questions file is invalid"
  }

  /**
    `Valid`: whether `val` answers `q`, and the error of a pattern that does not compile
    (which comes with `true`).
   */
  function Valid(q: Question, val: string, engine: Engine): (r: (bool, Option<string>))
    ensures r.1.Some? <==> q.regexp != "" && !engine.compiles(q.regexp)
    ensures r.1.Some? ==> r.0
    ensures r.1.None? ==> (r.0 <==> q.regexp == "" || engine.matches(q.regexp, val))
  {
    if q.regexp == "" then (true, None)
    else if !engine.compiles(q.regexp) then (true, Some(ParseError(q)))
    else (engine.matches(q.regexp, val), None)
  }

  /** How asking a question ended: with an answer, with the pattern's error, or looping forever. */
  datatype Outcome = Answered | Failed(error: string) | Stalled

  /** One question asked: the outcome, the answer, the input left and what was written. */
  datatype Exchange = Exchange(outcome: Outcome, answer: string, input: seq<string>, output: seq<Line>)

  /** What is written before each read. */
  function PromptLines(q: Question): seq<Line> {
    [Title(q.message + "\n")]
    + (if q.helpMessage != "" then [Info("Help: " + q.helpMessage + "\n")] else [])
    + (if q.default != "" then [Info("Default: " + q.default + "\n")] else [])
    + [Prompt("Enter " + q.name + ": ")]
  }

  function InvalidLine(q: Question): Line {
    Error("Invalid input! " + q.validationMessage + "\n")
  }

  /** The line read at position `k`: past the end of input, reading gives the empty string. */
  function LineAt(input: seq<string>, k: nat): string {
    if k < |input| then input[k] else ""
  }

  /** An empty line stands for the default. */
  function Effective(q: Question, line: string): string {
    if line == "" then q.default else line
  }

  /**
    The prompt loop for one question. Where Go would prompt forever, reading empty lines at
    the end of input and rejecting the default, the loop stops with `Stalled`.
   */
  function Prompting(q: Question, input: seq<string>, engine: Engine): Exchange
    decreases |input|
  {
    var rest := if input == [] then [] else input[1..];
    var answer := Effective(q, LineAt(input, 0));
    var (ok, err) := Valid(q, answer, engine);
    if err.Some? then Exchange(Failed(err.value), answer, rest, PromptLines(q))
    else if ok then Exchange(Answered, answer, rest, PromptLines(q))
    else if input == [] then Exchange(Stalled, answer, [], PromptLines(q) + [InvalidLine(q)])
    else
      var r := Prompting(q, rest, engine);
      r.(output := PromptLines(q) + [InvalidLine(q)] + r.output)
  }

  /**
    A question asked: a valid value given beforehand is taken silently; an invalid one is
    reported before the prompt loop.
   */
  function AskOne(q: Question, answers: map<string, string>, input: seq<string>, engine: Engine): Exchange
  {
    if q.name in answers && Valid(q, answers[q.name], engine).0 then Exchange(Answered, answers[q.name], input, [])
    else
      var r := Prompting(q, input, engine);
      if q.name in answers then r.(output := [InvalidLine(q)] + r.output) else r
  }

  /**
    Each round writes the prompt first; an empty regexp accepts the first line (or the
    default); a pattern that does not compile fails the loop; an empty line with a valid
    default answers with the default.
   */
  lemma PromptingFacts(q: Question, input: seq<string>, engine: Engine)
    ensures var r := Prompting(q, input, engine);
      && |PromptLines(q)| <= |r.output| && r.output[..|PromptLines(q)|] == PromptLines(q)
      && (q.regexp == "" ==>
            r == Exchange(Answered, Effective(q, LineAt(input, 0)), if input == [] then [] else input[1..], PromptLines(q)))
      && (q.regexp != "" && !engine.compiles(q.regexp) ==> r.outcome == Failed(ParseError(q)))
      && (input != [] && input[0] == "" && Valid(q, q.default, engine) == (true, None) ==>
            r.outcome == Answered && r.answer == q.default && r.input == input[1..])
  {
    var r := Prompting(q, input, engine);
    if !(Valid(q, Effective(q, LineAt(input, 0)), engine).0) && input != [] {
      var r' := Prompting(q, input[1..], engine);
      assert r.output == PromptLines(q) + [InvalidLine(q)] + r'.output;
    }
  }

  /**
    A valid value given beforehand is taken without reading or writing anything; an
    invalid one is reported, then the prompt loop runs; a question without a value goes
    straight to the prompt loop. A pattern that does not compile lets a value given
    beforehand through, its error dropped.
   */
  lemma AskOneFacts(q: Question, answers: map<string, string>, input: seq<string>, engine: Engine)
    ensures var r := AskOne(q, answers, input, engine);
      && (q.name in answers && Valid(q, answers[q.name], engine).0 ==>
            r == Exchange(Answered, answers[q.name], input, []))
      && (q.name in answers && !Valid(q, answers[q.name], engine).0 ==>
            1 + |PromptLines(q)| <= |r.output| && r.output[..1 + |PromptLines(q)|] == [InvalidLine(q)] + PromptLines(q))
      && (q.name !in answers ==> r == Prompting(q, input, engine))
      && (q.name in answers && q.regexp != "" && !engine.compiles(q.regexp) ==>
            r == Exchange(Answered, answers[q.name], input, []))
  {
    PromptingFacts(q, input, engine);
  }

  datatype Asked = Asked(outcome: Outcome, answers: map<string, string>, input: seq<string>, output: seq<Line>)

  /** The questions asked in order, each answer stored under the question's name, stopping at the first that does not end answered. */
  function AskAll(questions: seq<Question>, answers: map<string, string>, input: seq<string>, engine: Engine): Asked
    decreases |questions|
  {
    if questions == [] then Asked(Answered, answers, input, [])
    else
      var e := AskOne(questions[0], answers, input, engine);
      if !e.outcome.Answered? then Asked(e.outcome, answers, e.input, e.output)
      else
        var r := AskAll(questions[1..], answers[questions[0].name := e.answer], e.input, engine);
        r.(output := e.output + r.output)
  }

  /** One round of the prompt loop before validation: the title, help and default, the read, the default for an empty line. */
  method PromptOnce(ui: Console, q: Question) returns (answer: string)
    modifies ui
    ensures ui.output == old(ui.output) + PromptLines(q)
    ensures ui.input == if old(ui.input) == [] then [] else old(ui.input)[1..]
    ensures answer == Effective(q, LineAt(old(ui.input), 0))
  {
    ui.Titlef(q.message + "\n");
    if q.helpMessage != "" {
      ui.Printf("Help: " + q.helpMessage + "\n");
    }
    if q.default != "" {
      ui.Printf("Default: " + q.default + "\n");
    }
    answer := ui.ReadString("Enter " + q.name + ": ");
    if answer == "" {
      answer := q.default;
    }
  }

  /** The `for` loop of `Ask` that prompts, reads and validates until the answer is valid. */
  method PromptUntilValid(ui: Console, q: Question, engine: Engine) returns (outcome: Outcome, answer: string)
    modifies ui
    ensures var p := Prompting(q, old(ui.input), engine);
      outcome == p.outcome && answer == p.answer && ui.input == p.input && ui.output == old(ui.output) + p.output
  {
    ghost var p := Prompting(q, ui.input, engine);
    while true
      invariant var e := Prompting(q, ui.input, engine);
        e.outcome == p.outcome && e.answer == p.answer && e.input == p.input
        && ui.output + e.output == old(ui.output) + p.output
      decreases |ui.input|
    {
      ghost var output0 := ui.output;
      ghost var e := Prompting(q, ui.input, engine);
      var atEnd := ui.input == [];
      answer := PromptOnce(ui, q);
      var (ok, err) := Valid(q, answer, engine);
      if err.Some? {
        return Failed(err.value), answer;
      }
      if ok {
        return Answered, answer;
      }
      ui.Errorf("Invalid input! " + q.validationMessage + "\n");
      if atEnd {
        return Stalled, answer;
      }
      ghost var e' := Prompting(q, ui.input, engine);
      assert e.output == PromptLines(q) + [InvalidLine(q)] + e'.output;
      assert ui.output + e'.output == output0 + e.output;
    }
  }

  /** The body of `Ask`'s loop over the questions: one question asked and its answer stored. */
  method AskQuestion(ui: Console, q: Question, vars: Vars.VarMap, engine: Engine) returns (outcome: Outcome)
    modifies ui, vars
    ensures var e := AskOne(q, old(vars.entries), old(ui.input), engine);
      && outcome == e.outcome && ui.input == e.input && ui.output == old(ui.output) + e.output
      && vars.entries == if outcome.Answered? then old(vars.entries)[q.name := e.answer] else old(vars.entries)
  {
    ghost var reported := if q.name in vars.entries then [InvalidLine(q)] else [];
    if q.name in vars.entries {
      var v := vars.entries[q.name];
      var (ok, _) := Valid(q, v, engine);
      if ok {
        vars.entries := vars.entries[q.name := v];
        return Answered;
      }
      ui.Errorf("Invalid input! " + q.validationMessage + "\n");
    }
    ghost var output0 := ui.output;
    assert output0 == old(ui.output) + reported;
    ghost var p := Prompting(q, ui.input, engine);
    var answer;
    outcome, answer := PromptUntilValid(ui, q, engine);
    AppendAssoc(old(ui.output), reported, p.output);
    if outcome.Answered? {
      vars.entries := vars.entries[q.name := answer];
    }
  }

  /**
    `Ask`: the questions in order; the answers are written into the map the caller passed,
    and on success that same map is returned.
   */
  method Ask(ui: Console, questions: seq<Question>, vars: Vars.VarMap, engine: Engine)
    returns (answers: Vars.VarMap?, outcome: Outcome)
    modifies ui, vars
    ensures var r := AskAll(questions, old(vars.entries), old(ui.input), engine);
      outcome == r.outcome && vars.entries == r.answers && ui.input == r.input && ui.output == old(ui.output) + r.output
    ensures answers == if outcome.Answered? then vars else null
  {
    ghost var r := AskAll(questions, vars.entries, ui.input, engine);
    answers := vars;
    for i := 0 to |questions|
      invariant var a := AskAll(questions[i..], vars.entries, ui.input, engine);
        a.outcome == r.outcome && a.answers == r.answers && a.input == r.input
        && ui.output + a.output == old(ui.output) + r.output
    {
      ghost var output0 := ui.output;
      ghost var entries0 := vars.entries;
      ghost var e := AskOne(questions[i], vars.entries, ui.input, engine);
      ghost var a := AskAll(questions[i..], vars.entries, ui.input, engine);
      assert questions[i..][1..] == questions[i + 1..];
      outcome := AskQuestion(ui, questions[i], vars, engine);
      if !outcome.Answered? {
        assert a == Asked(outcome, entries0, ui.input, e.output);
        return null, outcome;
      }
      ghost var a' := AskAll(questions[i + 1..], vars.entries, ui.input, engine);
      assert a == a'.(output := e.output + a'.output);
      assert ui.output == output0 + e.output;
      AppendAssoc(output0, e.output, a'.output);
    }
    outcome := Answered;
  }

  /**
    With a usable pattern the loop never fails, and it stalls exactly when no line, nor the
    default read past the end of input, is valid: whenever a valid answer is offered, it
    answers.
   */
  lemma {:induction false} PromptingStallsOnlyWithoutValid(q: Question, input: seq<string>, engine: Engine)
    ensures var r := Prompting(q, input, engine);
      (q.regexp == "" || engine.compiles(q.regexp)) ==>
        && !r.outcome.Failed?
        && (r.outcome.Stalled? <==> forall k: nat | k <= |input| :: !Valid(q, Effective(q, LineAt(input, k)), engine).0)
    decreases |input|
  {
    if (q.regexp == "" || engine.compiles(q.regexp)) && input != [] && !Valid(q, Effective(q, input[0]), engine).0 {
      var rest := input[1..];
      PromptingStallsOnlyWithoutValid(q, rest, engine);
      forall k: nat | k <= |rest|
        ensures LineAt(input, k + 1) == LineAt(rest, k)
      {
      }
      if forall k: nat | k <= |rest| :: !Valid(q, Effective(q, LineAt(rest, k)), engine).0 {
        forall k: nat | k <= |input|
          ensures !Valid(q, Effective(q, LineAt(input, k)), engine).0
        {
          if k > 0 {
            assert LineAt(input, k) == LineAt(rest, k - 1);
          }
        }
      } else {
        var k: nat :| k <= |rest| && Valid(q, Effective(q, LineAt(rest, k)), engine).0;
        assert LineAt(input, k + 1) == LineAt(rest, k);
      }
    }
  }

  /**
    `answer` is the `k`-th line (the default, past the end of input), `rest` the lines
    after it, and every line before it was rejected.
   */
  predicate AnswersAt(q: Question, input: seq<string>, engine: Engine, k: nat, answer: string, rest: seq<string>) {
    && k <= |input|
    && answer == Effective(q, LineAt(input, k))
    && rest == (if k < |input| then input[k + 1..] else [])
    && forall j :: 0 <= j < k ==> !Valid(q, Effective(q, input[j]), engine).0
  }

  /** A rejected first line moves the answering line one place on. */
  lemma AnswersAtStep(q: Question, input: seq<string>, engine: Engine, k: nat, answer: string, rest: seq<string>)
    requires input != [] && !Valid(q, Effective(q, input[0]), engine).0
    requires AnswersAt(q, input[1..], engine, k, answer, rest)
    ensures AnswersAt(q, input, engine, k + 1, answer, rest)
  {
    assert LineAt(input, k + 1) == LineAt(input[1..], k);
    forall j | 0 < j < k + 1
      ensures !Valid(q, Effective(q, input[j]), engine).0
    {
      assert input[j] == input[1..][j - 1];
    }
    if k < |input[1..]| {
      assert input[1..][k + 1..] == input[k + 2..];
    }
  }

  /**
    The prompt loop answers with the first line (or, past the end of input, the default)
    whose effective value is valid; every earlier line was rejected.
   */
  lemma {:induction false} PromptingAnswersFirstValid(q: Question, input: seq<string>, engine: Engine)
    ensures var r := Prompting(q, input, engine);
      r.outcome.Answered? ==>
        Valid(q, r.answer, engine) == (true, None)
        && exists k: nat :: AnswersAt(q, input, engine, k, r.answer, r.input)
    decreases |input|
  {
    var r := Prompting(q, input, engine);
    if r.outcome.Answered? {
      var (ok, err) := Valid(q, Effective(q, LineAt(input, 0)), engine);
      if err.None? && ok {
        assert AnswersAt(q, input, engine, 0, r.answer, r.input);
      } else {
        assert input != [] && err.None? && !ok;
        PromptingAnswersFirstValid(q, input[1..], engine);
        var r' := Prompting(q, input[1..], engine);
        assert r.answer == r'.answer && r.input == r'.input;
        var k: nat :| AnswersAt(q, input[1..], engine, k, r'.answer, r'.input);
        AnswersAtStep(q, input, engine, k, r.answer, r.input);
      }
    }
  }

  /** When every question already has a valid value, nothing is read or written and the values are kept. */
  lemma {:induction false} AskAllPrefilled(questions: seq<Question>, answers: map<string, string>, input: seq<string>, engine: Engine)
    requires forall i :: 0 <= i < |questions| ==>
      questions[i].name in answers && Valid(questions[i], answers[questions[i].name], engine).0
    ensures AskAll(questions, answers, input, engine) == Asked(Answered, answers, input, [])
    decreases |questions|
  {
    if questions != [] {
      var q := questions[0];
      assert answers[q.name := answers[q.name]] == answers;
      AskAllPrefilled(questions[1..], answers, input, engine);
    }
  }

  /** Keys that no question names keep their values; no key is removed. */
  lemma {:induction false} AskAllKeepsOthers(questions: seq<Question>, answers: map<string, string>, input: seq<string>, engine: Engine, key: string)
    requires key in answers
    requires forall i :: 0 <= i < |questions| ==> questions[i].name != key
    ensures var r := AskAll(questions, answers, input, engine);
      key in r.answers && r.answers[key] == answers[key]
    decreases |questions|
  {
    if questions != [] {
      var e := AskOne(questions[0], answers, input, engine);
      if e.outcome.Answered? {
        AskAllKeepsOthers(questions[1..], answers[questions[0].name := e.answer], e.input, engine, key);
      }
    }
  }

  /**
    A run that ends answered stores, for each question with a name of its own, a value
    that passes the question's validation.
   */
  lemma {:induction false} AskAllAnswersValid(questions: seq<Question>, answers: map<string, string>, input: seq<string>, engine: Engine, i: nat)
    requires i < |questions|
    requires forall j :: 0 <= j < |questions| && j != i ==> questions[j].name != questions[i].name
    ensures var r := AskAll(questions, answers, input, engine);
      r.outcome.Answered? ==>
        questions[i].name in r.answers && Valid(questions[i], r.answers[questions[i].name], engine).0
    decreases |questions|
  {
    var q := questions[0];
    var e := AskOne(q, answers, input, engine);
    if e.outcome.Answered? {
      var m := answers[q.name := e.answer];
      if i == 0 {
        if !(q.name in answers && Valid(q, answers[q.name], engine).0) {
          PromptingAnswersFirstValid(q, input, engine);
        }
        AskAllKeepsOthers(questions[1..], m, e.input, engine, q.name);
      } else {
        AskAllAnswersValid(questions[1..], m, e.input, engine, i - 1);
      }
    }
  }
}

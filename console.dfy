/**
  The console the question engine talks to: the lines still to be typed, and the trace
  of what was written. Colours and the buffered reader are not part of this model.
 */
module Terminal {
  /** One write to the terminal, by the method that made it. */
  datatype Line =
    | Title(text: string) | Info(text: string) | Success(text: string) | Error(text: string)
    | Fatal(text: string) | Prompt(text: string)

  /** Go's `%#v` of a string: the string in double quotes (escaping is not modelled). */
  function Quote(s: string): string {
    "\"" + s + "\""
  }

  class Console {
    /** The lines the user will type, each without its newline. */
    var input: seq<string>
    var output: seq<Line>

    constructor (input: seq<string>)
      ensures this.input == input && output == []
    {
      this.input := input;
      output := [];
    }

    method Titlef(text: string)
      modifies this
      ensures output == old(output) + [Title(text)] && input == old(input)
    {
      output := output + [Title(text)];
    }

    method Printf(text: string)
      modifies this
      ensures output == old(output) + [Info(text)] && input == old(input)
    {
      output := output + [Info(text)];
    }

    method Errorf(text: string)
      modifies this
      ensures output == old(output) + [Error(text)] && input == old(input)
    {
      output := output + [Error(text)];
    }

    method Successf(text: string)
      modifies this
      ensures output == old(output) + [Success(text)] && input == old(input)
    {
      output := output + [Success(text)];
    }

    /** Writes the message before the process exits; callers return right after it. */
    method Fatalf(text: string)
      modifies this
      ensures output == old(output) + [Fatal(text)] && input == old(input)
    {
      output := output + [Fatal(text)];
    }

    /** Shows the prompt and reads one line; at the end of input it reads the empty string. */
    method ReadString(prompt: string) returns (line: string)
      modifies this
      ensures output == old(output) + [Prompt(prompt)]
      ensures old(input) == [] ==> line == "" && input == []
      ensures old(input) != [] ==> line == old(input)[0] && input == old(input)[1..]
    {
      output := output + [Prompt(prompt)];
      if input == [] {
        line := "";
      } else {
        line := input[0];
        input := input[1..];
      }
    }
  }
}

/**
  pkg/maker/config.go: the shape of `.starter.yml` and the decoding of a task command,
  which may be written either as one string or as a list of strings.
 */
module StarterConfig {
  import opened Wrappers
  import opened Text

  /** One question of `.starter.yml`; `kind` is the `type` key, which nothing reads. */
  datatype Question = Question(
    message: string,
    name: string,
    kind: string,
    default: string,
    regexp: string,
    validationMessage: string,
    helpMessage: string)

  datatype Task = Task(command: seq<string>)

  datatype Config = Config(questions: seq<Question>, tasks: seq<Task>)

  /** A YAML node, as the YAML decoder hands it over. */
  datatype Yaml =
    | Null
    | Scalar(text: string)
    | Sequence(items: seq<Yaml>)
    | Mapping(entries: seq<(Yaml, Yaml)>)

  /** A YAML node decoded into a Go string: scalars give their text, null the empty string. */
  function AsString(node: Yaml): Option<string> {
    match node
    case Null => Some("")
    case Scalar(text) => Some(text)
    case _ => None
  }

  /** Every item of a list node decodes into a string. */
  predicate AllStrings(items: seq<Yaml>) {
    forall i :: 0 <= i < |items| ==> AsString(items[i]).Some?
  }

  function Strings(items: seq<Yaml>): (r: seq<string>)
    requires AllStrings(items)
    ensures |r| == |items|
    ensures forall i :: 0 <= i < |items| ==> r[i] == AsString(items[i]).value
  {
    if items == [] then [] else [AsString(items[0]).value] + Strings(items[1..])
  }

  /**
    `StringOrSlice.UnmarshalYAML`: a string is split at every single space, a list is taken
    item by item, anything else is the decoder's error. A null node never reaches the method
    (the decoder leaves the command nil), shown here as `None`.
   */
  function UnmarshalCommand(node: Yaml): (r: Result<Option<seq<string>>>)
    ensures node.Null? ==> r == Ok(None)
    ensures node.Scalar? ==> r.Ok? && r.value.Some? && Join(r.value.value, " ") == node.text
    ensures node.Sequence? ==> (r.Ok? <==> AllStrings(node.items))
    ensures node.Mapping? ==> r.Err?
  {
    match node
    case Null => Ok(None)
    case Scalar(text) => Ok(Some(Split(text, ' ')))
    case Sequence(items) =>
      if AllStrings(items) then Ok(Some(Strings(items)))
      else Err("cannot unmarshal into []string")
    case Mapping(_) => Err("cannot unmarshal !!map into []string")
  }

  /** The command of a task: a nil command and an empty one are both of length zero. */
  function CommandOf(node: Yaml): Result<Task> {
    match UnmarshalCommand(node)
    case Ok(Some(words)) => Ok(Task(words))
    case Ok(None) => Ok(Task([]))
    case Err(e) => Err(e)
  }

  /**
    A string command is split into space-free words; a string with no space is a one-word
    command (`"cmd"` gives `["cmd"]`, `""` gives `[""]`).
   */
  lemma ScalarCommand(text: string)
    ensures UnmarshalCommand(Scalar(text)).Ok?
    ensures var words := UnmarshalCommand(Scalar(text)).value.value;
      && |words| >= 1
      && (forall i :: 0 <= i < |words| ==> ' ' !in words[i])
      && (' ' !in text ==> words == [text])
  {
    if ' ' !in text {
      assert Cut(text, ' ').None?;
    }
  }

  /** Space-free words written as one string come back as those words. */
  lemma ScalarCommandWords(words: seq<string>)
    requires |words| >= 1
    requires forall i :: 0 <= i < |words| ==> ' ' !in words[i]
    ensures UnmarshalCommand(Scalar(Join(words, " "))) == Ok(Some(words))
  {
    SplitJoin(words, ' ');
  }

  /** A list of strings is kept verbatim, spaces inside items included; `[]` is the empty command. */
  lemma ListCommand(texts: seq<string>)
    ensures var items := seq(|texts|, i requires 0 <= i < |texts| => Scalar(texts[i]));
      UnmarshalCommand(Sequence(items)) == Ok(Some(texts))
  {
    var items := seq(|texts|, i requires 0 <= i < |texts| => Scalar(texts[i]));
    assert AllStrings(items);
    assert Strings(items) == texts;
  }
}

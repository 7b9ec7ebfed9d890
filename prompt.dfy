/** The operator, as a script of answers. Every selection prompt of the
    program shows a list of labels and blocks until the operator picks one,
    presses Esc, or presses Ctrl-C. A `Dialog` holds the answers still to come
    and the log of menus shown so far, so that a contract can say which prompts
    were issued, in which order, and with which options. */
module Prompt {
  import opened Common

  datatype Answer = Pick(index: nat) | Escape | Interrupt

  /** A menu as it was shown: the prompt message and the rendered options. */
  datatype Menu = Menu(message: string, labels: seq<string>, skippable: bool)

  datatype Dialog = Dialog(answers: seq<Answer>, shown: seq<Menu>)

  /** The operator's next answer; one who answers no more interrupts. */
  function NextAnswer(d: Dialog): Answer {
    if d.answers == [] then Interrupt else d.answers[0]
  }

  /** The dialog after the operator answered `menu`. */
  function Answered(d: Dialog, menu: Menu): (d': Dialog)
    ensures |d'.answers| == if d.answers == [] then 0 else |d.answers| - 1
    ensures |d'.shown| == |d.shown| + 1
    ensures d'.shown[..|d.shown|] == d.shown && d'.shown[|d.shown|..] == [menu]
  {
    Dialog(if d.answers == [] then [] else d.answers[1..], d.shown + [menu])
  }

  /** `Select::prompt`: an empty list is refused before anything is shown;
      Esc cancels and Ctrl-C interrupts, both as errors. */
  function Select(d: Dialog, message: string, labels: seq<string>): (r: Result<(nat, Dialog)>)
    ensures labels == [] ==> r == Err(EmptyOptions)
    ensures labels != [] && NextAnswer(d) == Escape ==> r == Err(PromptCancelled)
    ensures labels != [] && NextAnswer(d) == Interrupt ==> r == Err(PromptInterrupted)
    ensures r.Ok? <==> labels != [] && NextAnswer(d).Pick? && NextAnswer(d).index < |labels|
    ensures r.Ok? ==> r.value.0 == NextAnswer(d).index < |labels|
    ensures r.Ok? ==> r.value.1 == Answered(d, Menu(message, labels, false))
  {
    if labels == [] then Err(EmptyOptions)
    else
      match NextAnswer(d)
      case Escape => Err(PromptCancelled)
      case Interrupt => Err(PromptInterrupted)
      case Pick(i) =>
        if i < |labels| then Ok((i, Answered(d, Menu(message, labels, false))))
        else Err(NoSuchOption)
  }

  /** `Select::prompt_skippable`: as `Select`, except that Esc is an answer,
      "no selection", and not an error. Ctrl-C is still an error. */
  function SelectSkippable(d: Dialog, message: string, labels: seq<string>): (r: Result<(Option<nat>, Dialog)>)
    ensures labels == [] ==> r == Err(EmptyOptions)
    ensures labels != [] && NextAnswer(d) == Escape ==>
              r == Ok((None, Answered(d, Menu(message, labels, true))))
    ensures labels != [] && NextAnswer(d) == Interrupt ==> r == Err(PromptInterrupted)
    ensures r.Ok? <==> labels != [] && (NextAnswer(d).Escape? || (NextAnswer(d).Pick? && NextAnswer(d).index < |labels|))
    ensures r.Ok? && r.value.0.Some? ==> r.value.0.value == NextAnswer(d).index < |labels|
    ensures labels != [] && NextAnswer(d).Pick? && NextAnswer(d).index < |labels| ==>
              r == Ok((Some(NextAnswer(d).index), Answered(d, Menu(message, labels, true))))
    ensures r.Ok? ==> r.value.1 == Answered(d, Menu(message, labels, true))
  {
    if labels == [] then Err(EmptyOptions)
    else
      match NextAnswer(d)
      case Escape => Ok((None, Answered(d, Menu(message, labels, true))))
      case Interrupt => Err(PromptInterrupted)
      case Pick(i) =>
        if i < |labels| then Ok((Some(i), Answered(d, Menu(message, labels, true))))
        else Err(NoSuchOption)
  }
}

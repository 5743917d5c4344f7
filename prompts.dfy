/**
 * The re-prompting input checks of TaskManager.cs. The user's answers are the
 * lines of `input`, read front to back; each method reports how many lines it
 * consumed (`used`) and the lines it wrote (`written`), in order.
 */
module Prompts {
  import opened Wrappers
  import opened Tasks

  const DatePrompt := "Enter the due date (YYYY-MM-DD): "
  const DateRejected := "Invalid date format. Please use YYYY-MM-DD."
  const EditPrompt := "Enter your choice (1-6): "
  const StatusPrompt := "Enter your choice (1-3): "
  const InvalidOption := "Invalid option. Please try again."

  /** The answers ValidatedEditSelection accepts. */
  const EditChoices: set<string> := {"1", "2", "3", "4", "5", "6"}
  /** The answers ValidatedTaskCompletionStatusSelection accepts. */
  const StatusChoices: set<string> := {"1", "2", "3"}

  /** `n` copies of `block`, one after the other. */
  function Repeat(block: seq<string>, n: nat): (lines: seq<string>)
  {
    if n == 0 then [] else Repeat(block, n - 1) + block
  }

  /** A line that occurs once in `block` occurs `n` times in `n` copies of it. */
  lemma {:induction false} RepeatCount(block: seq<string>, n: nat, line: string)
    requires multiset(block)[line] == 1
    ensures multiset(Repeat(block, n))[line] == n
  {
    if n > 0 {
      RepeatCount(block, n - 1, line);
      assert multiset(Repeat(block, n)) == multiset(Repeat(block, n - 1)) + multiset(block);
    }
  }

  /** Some line of `input` parses as a date; otherwise the date prompt never returns. */
  predicate HasValidDate(input: seq<string>, parseDate: string -> Option<Tick>)
  {
    exists i :: 0 <= i < |input| && parseDate(input[i]).Some?
  }

  /** The position of the first line of `input` that parses as a date. */
  ghost function FirstDate(input: seq<string>, parseDate: string -> Option<Tick>): (k: nat)
    requires HasValidDate(input, parseDate)
    ensures k < |input| && parseDate(input[k]).Some?
    ensures forall j :: 0 <= j < k ==> parseDate(input[j]).None?
  {
    if parseDate(input[0]).Some? then 0
    else
      var i :| 0 <= i < |input| && parseDate(input[i]).Some?;
      assert input[1..][i - 1] == input[i];
      FirstDate(input[1..], parseDate) + 1
  }

  /**
   * Prompts until a line parses as a date and returns that date. Every rejected
   * line is answered by exactly one diagnostic; the accepted line by none.
   */
  method ValidatedUserDateInput(input: seq<string>, parseDate: string -> Option<Tick>)
    returns (dueDate: Tick, used: nat, written: seq<string>)
    requires HasValidDate(input, parseDate)
    ensures 1 <= used <= |input|
    ensures parseDate(input[used - 1]) == Some(dueDate)
    ensures forall j :: 0 <= j < used - 1 ==> parseDate(input[j]).None?
    ensures written == Repeat([DatePrompt, DateRejected], used - 1) + [DatePrompt]
    ensures multiset(written)[DateRejected] == used - 1
  {
    ghost var first := FirstDate(input, parseDate);
    used, written := 0, [];
    dueDate := 0;
    var validDueDate := false;
    while !validDueDate
      invariant used <= first + 1
      invariant validDueDate <==> used == first + 1
      invariant !validDueDate ==> written == Repeat([DatePrompt, DateRejected], used)
      invariant validDueDate ==> written == Repeat([DatePrompt, DateRejected], first) + [DatePrompt]
      invariant validDueDate ==> parseDate(input[first]) == Some(dueDate)
      decreases first + 1 - used
    {
      written := written + [DatePrompt];
      var dueDateInput := input[used];
      used := used + 1;
      match parseDate(dueDateInput)
      case Some(d) =>
        dueDate := d;
        validDueDate := true;
      case None =>
        written := written + [DateRejected];
    }
    assert multiset([DatePrompt, DateRejected])[DateRejected] == 1;
    RepeatCount([DatePrompt, DateRejected], used - 1, DateRejected);
  }

  /** Some line of `input` is one of `choices`; otherwise the selection prompt never returns. */
  predicate HasChoice(input: seq<string>, choices: set<string>)
  {
    exists i :: 0 <= i < |input| && input[i] in choices
  }

  /**
   * The loop both selection prompts share: ask once, then answer each line outside
   * `choices` with a complaint and a new prompt, and return the first line inside.
   */
  method SelectChoice(input: seq<string>, choices: set<string>, prompt: string)
    returns (choice: string, used: nat, written: seq<string>)
    requires HasChoice(input, choices)
    ensures 1 <= used <= |input|
    ensures choice == input[used - 1] && choice in choices
    ensures forall j :: 0 <= j < used - 1 ==> input[j] !in choices
    ensures written == [prompt] + Repeat([InvalidOption, prompt], used - 1)
  {
    written := [prompt];
    choice := input[0];
    used := 1;
    while choice !in choices
      invariant 1 <= used <= |input|
      invariant choice == input[used - 1]
      invariant forall j :: 0 <= j < used - 1 ==> input[j] !in choices
      invariant exists i :: used - 1 <= i < |input| && input[i] in choices
      invariant written == [prompt] + Repeat([InvalidOption, prompt], used - 1)
      decreases |input| - used
    {
      written := written + [InvalidOption, prompt];
      choice := input[used];
      used := used + 1;
    }
  }

  /** Returns the first line that is one of "1" to "6", complaining once about each line before it. */
  method ValidatedEditSelection(input: seq<string>) returns (editChoice: string, used: nat, written: seq<string>)
    requires HasChoice(input, EditChoices)
    ensures 1 <= used <= |input|
    ensures editChoice == input[used - 1] && editChoice in EditChoices
    ensures forall j :: 0 <= j < used - 1 ==> input[j] !in EditChoices
    ensures multiset(written)[InvalidOption] == used - 1
  {
    editChoice, used, written := SelectChoice(input, EditChoices, EditPrompt);
    assert multiset([InvalidOption, EditPrompt])[InvalidOption] == 1;
    RepeatCount([InvalidOption, EditPrompt], used - 1, InvalidOption);
  }

  /** Returns the first line that is one of "1" to "3", complaining once about each line before it. */
  method ValidatedTaskCompletionStatusSelection(input: seq<string>)
    returns (userChoice: string, used: nat, written: seq<string>)
    requires HasChoice(input, StatusChoices)
    ensures 1 <= used <= |input|
    ensures userChoice == input[used - 1] && userChoice in StatusChoices
    ensures forall j :: 0 <= j < used - 1 ==> input[j] !in StatusChoices
    ensures multiset(written)[InvalidOption] == used - 1
  {
    userChoice, used, written := SelectChoice(input, StatusChoices, StatusPrompt);
    assert multiset([InvalidOption, StatusPrompt])[InvalidOption] == 1;
    RepeatCount([InvalidOption, StatusPrompt], used - 1, InvalidOption);
  }

  /** The retry of the unit tests: "random" and "7" are refused, "3" is returned after two complaints. */
  method EditSelectionRetries() returns (editChoice: string, used: nat, complaints: nat)
    ensures editChoice == "3" && used == 3 && complaints == 2
  {
    var written;
    var input := ["random", "7", "3"];
    assert input[2] in EditChoices;
    editChoice, used, written := ValidatedEditSelection(input);
    assert "random" !in EditChoices && "7" !in EditChoices;
    complaints := multiset(written)[InvalidOption];
  }

  /** A rejected line followed by a date: one diagnostic, and the date of the second line. */
  method DateInputRetries(parseDate: string -> Option<Tick>, date: Tick) returns (dueDate: Tick, diagnostics: nat)
    requires parseDate("invalid").None? && parseDate("2023-10-20") == Some(date)
    ensures dueDate == date && diagnostics == 1
  {
    var input := ["invalid", "2023-10-20"];
    assert parseDate(input[1]).Some?;
    var used, written;
    dueDate, used, written := ValidatedUserDateInput(input, parseDate);
    diagnostics := multiset(written)[DateRejected];
  }
}

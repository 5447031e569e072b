/**
 * The part of the list screen that the data logic drives: the task-count
 * label under the list, the "no tasks" placeholder, and the rows of the table.
 */
module ListView {
  import opened Wrappers
  import opened TaskModel

  /** The decimal digit for `d`. */
  function Digit(d: nat): (c: char)
    requires d < 10
    ensures '0' <= c <= '9'
  {
    ['0', '1', '2', '3', '4', '5', '6', '7', '8', '9'][d]
  }

  /** The value of a decimal digit. */
  function DigitValue(c: char): nat
    requires '0' <= c <= '9'
  {
    (c as int) - ('0' as int)
  }

  /** String interpolation of a non-negative `Int`: its decimal digits, no sign, no leading zero. */
  function DecimalString(n: nat): (r: string)
    ensures r != []
    ensures forall k :: 0 <= k < |r| ==> '0' <= r[k] <= '9'
    ensures |r| > 1 ==> r[0] != '0'
  {
    if n < 10 then [Digit(n)] else DecimalString(n / 10) + [Digit(n % 10)]
  }

  /** The number a string of decimal digits denotes. */
  function DecimalValue(s: string): nat
    requires forall k :: 0 <= k < |s| ==> '0' <= s[k] <= '9'
  {
    if s == [] then 0 else DecimalValue(s[..|s| - 1]) * 10 + DigitValue(s[|s| - 1])
  }

  /** Reading the interpolated digits back gives the number. */
  lemma {:induction false} DecimalRoundTrip(n: nat)
    ensures DecimalValue(DecimalString(n)) == n
  {
    var r := DecimalString(n);
    if n >= 10 {
      DecimalRoundTrip(n / 10);
      assert r[..|r| - 1] == DecimalString(n / 10);
    }
  }

  /** The longest prefix of `s` made of decimal digits. */
  function LeadingDigits(s: string): (r: string)
    ensures r <= s
    ensures forall k :: 0 <= k < |r| ==> '0' <= r[k] <= '9'
  {
    if s != [] && '0' <= s[0] <= '9' then [s[0]] + LeadingDigits(s[1..]) else []
  }

  /** The digits in front of a non-digit are exactly the leading digits. */
  lemma {:induction false} LeadingDigitsOf(digits: string, rest: string)
    requires forall k :: 0 <= k < |digits| ==> '0' <= digits[k] <= '9'
    requires rest != [] && !('0' <= rest[0] <= '9')
    ensures LeadingDigits(digits + rest) == digits
  {
    if digits != [] {
      LeadingDigitsOf(digits[1..], rest);
      assert (digits + rest)[1..] == digits[1..] + rest;
    } else {
      assert digits + rest == rest;
    }
  }

  const NoTasksText := "Нет задач"

  /**
   * `updateTasksCount`: the label text for `count` tasks. The noun follows the
   * count with three cases only: 1, 2 to 4, and everything from 5 up.
   */
  function TasksCountText(count: nat): (text: string)
    ensures count == 0 <==> text == NoTasksText
  {
    if count == 0 then NoTasksText
    else if count == 1 then "1 задача"
    else
      var digits := DecimalString(count);
      var text := digits + if count < 5 then " задачи" else " задач";
      assert text[0] == digits[0] != NoTasksText[0];
      text
  }

  /** The count a label text shows, read back from its leading digits. */
  function CountFromText(text: string): Option<nat> {
    if text == NoTasksText then Some(0)
    else
      var digits := LeadingDigits(text);
      if digits == [] then None else Some(DecimalValue(digits))
  }

  /** The label always shows the count it was given: distinct counts give distinct texts. */
  lemma CountTextRoundTrip(count: nat)
    ensures CountFromText(TasksCountText(count)) == Some(count)
  {
    if count > 0 {
      var noun := if count == 1 then " задача" else if count < 5 then " задачи" else " задач";
      LeadingDigitsOf(DecimalString(count), noun);
      DecimalRoundTrip(count);
    }
  }

  /** Counts ending in 1 from 21 up take the "5 or more" noun, as the rule is written. */
  lemma TwentyOneTasksText()
    ensures TasksCountText(21) == "21 задач"
    ensures TasksCountText(22) == "22 задач"
  {
    assert DecimalString(21) == "21";
    assert DecimalString(22) == "22";
  }

  class ListScreen {
    /** The tasks the table shows, read from the presenter at the last reload. */
    var rows: seq<Task>
    var emptyLabelHidden: bool
    var countText: string
    /** How many times the table was reloaded. */
    var reloadCount: nat

    /** The screen as built: no rows, the placeholder hidden, the label reading "0 задач". */
    constructor ()
      ensures rows == [] && emptyLabelHidden && countText == "0 задач" && reloadCount == 0
    {
      rows := [];
      emptyLabelHidden := true;
      countText := "0 задач";
      reloadCount := 0;
    }

    /**
     * The screen shows `tasks`: one row per task, the placeholder visible
     * exactly when there is none, and the count label for their number.
     */
    ghost predicate Shows(tasks: seq<Task>)
      reads this
    {
      rows == tasks && emptyLabelHidden == (|tasks| > 0) && countText == TasksCountText(|tasks|)
    }

    /** `reloadData`, given the presenter's current tasks. */
    method ReloadData(tasks: seq<Task>)
      modifies this
      ensures Shows(tasks)
      ensures reloadCount == old(reloadCount) + 1
    {
      rows := tasks;
      emptyLabelHidden := |tasks| > 0;
      countText := TasksCountText(|tasks|);
      reloadCount := reloadCount + 1;
    }
  }

  /** A reloaded screen shows the placeholder exactly when its label reads "Нет задач". */
  lemma PlaceholderMatchesLabel(screen: ListScreen, tasks: seq<Task>)
    requires screen.Shows(tasks)
    ensures !screen.emptyLabelHidden <==> screen.countText == NoTasksText
  {
  }
}

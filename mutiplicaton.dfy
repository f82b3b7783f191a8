/**
 * The older multiplication-table handler of mutiplicaton.py: the whole text
 * of the message is read with `int()`, and ten lines `"n x i = n*i\n"` are
 * appended to a string one by one.
 */
module Mutiplicaton {
  import opened Wrappers
  import opened Text

  /** `f"{number} x {i} = {number * i}"`, without its newline. */
  function Line(n: int, i: int): string
  {
    IntToString(n) + " x " + IntToString(i) + " = " + IntToString(n * i)
  }

  /** Each of `lines`, in order, followed by a newline. */
  function Terminated(lines: seq<string>): (s: string)
    ensures |s| >= |lines|
  {
    if lines == [] then "" else Terminated(lines[..|lines| - 1]) + lines[|lines| - 1] + "\n"
  }

  /** The lines of the table of `n` for i = 1..k. */
  function LinesUpTo(n: int, k: nat): (lines: seq<string>)
    ensures |lines| == k && forall j :: 0 <= j < k ==> lines[j] == Line(n, j + 1)
  {
    seq(k, j => Line(n, j + 1))
  }

  /** The reply of `generate_multiplication_table`. */
  datatype Outcome =
    | Reply(text: string)
    /** A message without text: `int(None)` raises a TypeError the handler does not catch. */
    | Crash

  const ErrorReply: string := "الرجاء إدخال رقم صحيح."

  /**
   * `generate_multiplication_table` for a message whose text is `text`:
   * a number gets the ten terminated lines of its table and nothing else,
   * any other text only the error reply.
   */
  method GenerateTable(text: Option<string>) returns (r: Outcome)
    ensures text.None? <==> r.Crash?
    ensures text.Some? && ParseInt(text.value).None? ==> r == Reply(ErrorReply)
    ensures text.Some? && ParseInt(text.value).Some? ==>
              r == Reply(Terminated(LinesUpTo(ParseInt(text.value).value, 10)))
  {
    if text.None? {
      return Crash;
    }
    var parsed := ParseInt(text.value);
    if parsed.None? {
      return Reply(ErrorReply);
    }
    var number := parsed.value;
    var table := "";
    for i := 1 to 11
      invariant table == Terminated(LinesUpTo(number, i - 1))
    {
      TerminatedStep(number, i - 1);
      table := table + (Line(number, i) + "\n");
    }
    r := Reply(table);
  }

  /** One more loop round appends the next line and its newline. */
  lemma TerminatedStep(n: int, k: nat)
    ensures Terminated(LinesUpTo(n, k + 1)) == Terminated(LinesUpTo(n, k)) + Line(n, k + 1) + "\n"
  {
    assert LinesUpTo(n, k + 1)[..k] == LinesUpTo(n, k);
  }

  /** A terminated list starts with its first line and that line's newline. */
  lemma {:induction false} TerminatedFirst(lines: seq<string>)
    requires |lines| >= 1
    ensures Terminated(lines) == lines[0] + "\n" + Terminated(lines[1..])
    decreases |lines|
  {
    if |lines| > 1 {
      var init := lines[..|lines| - 1];
      TerminatedFirst(init);
      assert init[1..] == lines[1..][..|lines[1..]| - 1];
      assert lines[1..][|lines[1..]| - 1] == lines[|lines| - 1];
    } else {
      assert lines[1..] == [];
    }
  }

  /** Splitting a terminated list at its newlines gives the lines back, then the empty text after the last newline. */
  lemma {:induction false} SplitTerminated(lines: seq<string>)
    requires forall k :: 0 <= k < |lines| ==> '\n' !in lines[k]
    ensures Split(Terminated(lines), '\n') == lines + [""]
    decreases |lines|
  {
    if lines != [] {
      TerminatedFirst(lines);
      SplitTerminated(lines[1..]);
      assert lines[0] + "\n" + Terminated(lines[1..]) == lines[0] + ['\n'] + Terminated(lines[1..]);
      SplitAtFirst(lines[0], '\n', Terminated(lines[1..]));
      assert [lines[0]] + lines[1..] == lines;
    }
  }

  /** The table of a number is exactly its ten lines for i = 1..10, in order, each ended by a newline. */
  lemma TableLines(n: int)
    ensures Split(Terminated(LinesUpTo(n, 10)), '\n') == LinesUpTo(n, 10) + [""]
  {
    forall k | 0 <= k < 10
      ensures '\n' !in LinesUpTo(n, 10)[k]
    {
      NoNewlineInNumber(n);
      NoNewlineInNumber(k + 1);
      NoNewlineInNumber(n * (k + 1));
    }
    SplitTerminated(LinesUpTo(n, 10));
  }
}

// `ConsoleObserver`: appends each event's message to a text log. The
// messages are stored as they arrive and the output joins them with
// newlines.

module ConsoleObservers {
  import opened Strings
  import opened SearchEvents

  /** `s.split(c)` for a single character: the pieces between occurrences of `c`. */
  function Split(s: string, c: char): (r: seq<string>)
    ensures |r| > 0
  {
    if s == [] then [""]
    else
      var rest := Split(s[1..], c);
      if s[0] == c then [""] + rest else [[s[0]] + rest[0]] + rest[1..]
  }

  lemma {:induction false} SplitNoSeparator(s: string, c: char)
    requires c !in s
    ensures Split(s, c) == [s]
  {
    if s != [] {
      SplitNoSeparator(s[1..], c);
      assert [s[0]] + s[1..] == s;
    }
  }

  lemma {:induction false} SplitAtSeparator(a: string, c: char, b: string)
    requires c !in a
    ensures Split(a + [c] + b, c) == [a] + Split(b, c)
  {
    if a == [] {
      assert a + [c] + b == [c] + b;
      assert ([c] + b)[1..] == b;
    } else {
      assert (a + [c] + b)[1..] == a[1..] + [c] + b;
      SplitAtSeparator(a[1..], c, b);
      assert [a[0]] + a[1..] == a;
    }
  }

  /**
   * The joined output loses nothing: when no message contains a newline,
   * splitting the output at newlines gives back the messages.
   */
  lemma {:induction false} SplitJoin(xs: seq<string>)
    requires |xs| > 0
    requires forall i :: 0 <= i < |xs| ==> '\n' !in xs[i]
    ensures Split(Join(xs, "\n"), '\n') == xs
  {
    if |xs| == 1 {
      SplitNoSeparator(xs[0], '\n');
    } else {
      SplitJoin(xs[1..]);
      SplitAtSeparator(xs[0], '\n', Join(xs[1..], "\n"));
      assert [xs[0]] + xs[1..] == xs;
    }
  }

  class ConsoleObserver {
    var logs: seq<string>

    constructor()
      ensures logs == []
    {
      logs := [];
    }

    /** `update`: the event's message is appended as it is. */
    method Update(e: SearchEvent)
      modifies this
      ensures logs == old(logs) + [e.message]
    {
      logs := logs + [e.message];
    }

    /** `getLogs`: a sequence is a value, so the caller's copy is independent of the log. */
    method GetLogs() returns (r: seq<string>)
      ensures r == logs
    {
      r := logs;
    }

    /** `getOutput`: the messages joined with newlines; empty when there are none. */
    function Output(): (r: string)
      reads this
      ensures logs == [] ==> r == ""
      ensures |logs| == 1 ==> r == logs[0]
    {
      Join(logs, "\n")
    }

    method Clear()
      modifies this
      ensures logs == [] && Output() == ""
    {
      logs := [];
    }
  }
}

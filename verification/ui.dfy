/** The log panel of src/ui.py: a bounded buffer of messages that drops the
    oldest when full, shown as one text with a message per line. */
module Ui {
  import opened Strings

  /** The last `n` messages of `s`, or all of them when there are fewer. */
  function Keep(s: seq<string>, n: nat): (r: seq<string>)
    ensures |r| == if |s| < n then |s| else n
    ensures r == s[|s| - |r|..]
  {
    if |s| <= n then s else s[|s| - n..]
  }

  /** Keeping the last `n`, then adding more and keeping the last `n` again,
      is keeping the last `n` of everything: a run of additions leaves the
      `n` most recent messages, whatever was dropped on the way. */
  lemma KeepAppend(s: seq<string>, t: seq<string>, n: nat)
    ensures Keep(Keep(s, n) + t, n) == Keep(s + t, n)
  {
    var k := Keep(s, n);
    assert s + t == s[..|s| - |k|] + (k + t);
  }

  /** The buffer's size when it holds `maxLen` messages. */
  const DefaultMaxLen: nat := 10

  class LogManager {
    /** The messages, oldest first: `deque(maxlen=max_len)`. */
    var logs: seq<string>
    const maxLen: nat

    ghost predicate Valid()
      reads this
    {
      |logs| <= maxLen
    }

    /** A new panel holds no message. */
    constructor (maxLen: nat := DefaultMaxLen)
      ensures this.maxLen == maxLen && logs == [] && Valid()
    {
      this.maxLen := maxLen;
      logs := [];
    }

    /** `add(msg)`: appends, dropping the oldest message when full. */
    method Add(msg: string)
      requires Valid()
      modifies this
      ensures Valid()
      ensures logs == Keep(old(logs) + [msg], maxLen)
    {
      if |logs| < maxLen {
        logs := logs + [msg];
      } else if maxLen > 0 {
        logs := logs[1..] + [msg];
      }
    }

    /** `get_text()`: the messages joined by newlines. */
    function GetText(): string
      reads this
    {
      Join(logs, "\n")
    }
  }

  /** The panel's text holds each message on its own line: splitting it at
      the newlines gives the messages back, when none spans two lines. */
  lemma GetTextLines(log: LogManager)
    requires log.logs != []
    requires forall k :: 0 <= k < |log.logs| ==> '\n' !in log.logs[k]
    ensures Split(log.GetText(), '\n') == log.logs
  {
    SplitJoin(log.logs, '\n');
  }

  /** The buffer after adding `msgs` in order. */
  function AddAll(logs: seq<string>, msgs: seq<string>, n: nat): seq<string>
    decreases |msgs|
  {
    if msgs == [] then logs else AddAll(Keep(logs + [msgs[0]], n), msgs[1..], n)
  }

  /** Adding messages one by one leaves the `n` most recent of all the
      messages ever added, in order, and never more than `n`. */
  lemma {:induction false} AddAllSpec(logs: seq<string>, msgs: seq<string>, n: nat)
    requires |logs| <= n
    ensures AddAll(logs, msgs, n) == Keep(logs + msgs, n)
    ensures |AddAll(logs, msgs, n)| <= n
    decreases |msgs|
  {
    if msgs == [] {
      assert logs + msgs == logs;
    } else {
      var added := logs + [msgs[0]];
      var next := Keep(added, n);
      AddAllSpec(next, msgs[1..], n);
      KeepAppend(added, msgs[1..], n);
      assert added + msgs[1..] == logs + msgs;
      calc {
        AddAll(logs, msgs, n);
        AddAll(next, msgs[1..], n);
        Keep(next + msgs[1..], n);
        Keep(added + msgs[1..], n);
      }
    }
  }
}

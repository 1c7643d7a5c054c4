/** The text side of a node's activity recorder (lib/logger.rb): each recorded
    activity is stored as one line "[<timestamp>] <activity>", and the whole log
    is read back as its lines joined by newlines, oldest first. */
module Logger {

  /** The line stored for one activity: the bracketed timestamp, a space, then
      the activity text. */
  function Stamped(stamp: string, activity: string): (line: string)
    ensures |line| == |stamp| + |activity| + 3
    ensures line[0] == '[' && line[1..|stamp| + 1] == stamp
    ensures line[|stamp| + 1..|stamp| + 3] == "] "
    ensures line[|stamp| + 3..] == activity
  {
    "[" + stamp + "] " + activity
  }

  /** The lines in insertion order, separated by newlines (Ruby's `join("\n")`).
      The text begins with the first line and holds at least one character per
      separator. */
  function Join(lines: seq<string>): (s: string)
    ensures |lines| == 0 ==> s == ""
    ensures |lines| > 0 ==> lines[0] <= s
    ensures |s| >= |lines| - 1
  {
    if |lines| == 0 then ""
    else if |lines| == 1 then lines[0]
    else lines[0] + "\n" + Join(lines[1..])
  }

  /** Cuts a text at every newline; the reference inverse of Join. */
  function Split(s: string): (parts: seq<string>)
    ensures |parts| >= 1
  {
    if |s| == 0 then [""]
    else
      var rest := Split(s[1..]);
      if s[0] == '\n' then [""] + rest
      else [[s[0]] + rest[0]] + rest[1..]
  }

  predicate NoNewline(s: string) {
    '\n' !in s
  }

  lemma NoNewlineCat(a: string, b: string)
    ensures NoNewline(a + b) <==> NoNewline(a) && NoNewline(b)
  {
  }

  /** An empty log reads back as the empty text, a one-line log as that line. */
  lemma JoinShort(line: string)
    ensures Join([]) == ""
    ensures Join([line]) == line
  {
  }

  /** Recording one more line extends the text read back by a newline and that line. */
  lemma {:induction false} JoinSnoc(lines: seq<string>, line: string)
    ensures Join(lines + [line]) == if lines == [] then line else Join(lines) + "\n" + line
  {
    if |lines| >= 2 {
      assert (lines + [line])[1..] == lines[1..] + [line];
      JoinSnoc(lines[1..], line);
    } else if |lines| == 1 {
      assert lines + [line] == [lines[0], line];
      assert [lines[0], line][1..] == [line];
    }
  }

  lemma {:induction false} SplitNoNewline(s: string)
    requires NoNewline(s)
    ensures Split(s) == [s]
  {
    if |s| > 0 {
      SplitNoNewline(s[1..]);
      assert [s[0]] + s[1..] == s;
    }
  }

  lemma {:induction false} SplitAtNewline(a: string, b: string)
    requires NoNewline(a)
    ensures Split(a + "\n" + b) == [a] + Split(b)
  {
    if |a| == 0 {
      assert a + "\n" + b == "\n" + b;
      assert ("\n" + b)[1..] == b;
    } else {
      assert (a + "\n" + b)[1..] == a[1..] + "\n" + b;
      SplitAtNewline(a[1..], b);
      assert [a[0]] + a[1..] == a;
    }
  }

  /** The log read back can be cut into exactly the recorded lines again, as long
      as no line holds a newline of its own. */
  lemma {:induction false} SplitJoin(lines: seq<string>)
    requires |lines| >= 1
    requires forall i :: 0 <= i < |lines| ==> NoNewline(lines[i])
    ensures Split(Join(lines)) == lines
  {
    if |lines| == 1 {
      SplitNoNewline(lines[0]);
    } else {
      SplitAtNewline(lines[0], Join(lines[1..]));
      SplitJoin(lines[1..]);
    }
  }
}

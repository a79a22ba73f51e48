/**
  * The diagram is produced as a sequence of lines and handed out as one text
  * with the lines separated by a newline (JavaScript `lines.join('\n')`).
  * `Split` is JavaScript's `text.split('\n')`, the inverse used to read the
  * lines back.
  */
module Text {

  /** JavaScript `lines.join('\n')`. */
  function Join(lines: seq<string>): (text: string)
    ensures |lines| == 1 ==> text == lines[0]
    ensures |lines| == 0 ==> text == ""
  {
    if |lines| == 0 then ""
    else if |lines| == 1 then lines[0]
    else lines[0] + "\n" + Join(lines[1..])
  }

  /** JavaScript `text.split('\n')`: always at least one piece, none holding a newline. */
  function Split(text: string): (pieces: seq<string>)
    ensures |pieces| >= 1
    ensures forall i :: 0 <= i < |pieces| ==> '\n' !in pieces[i]
  {
    if |text| == 0 then [""]
    else
      var rest := Split(text[1..]);
      if text[0] == '\n' then [""] + rest
      else [[text[0]] + rest[0]] + rest[1..]
  }

  /** Splitting undoes joining: every piece of `text` comes back, separators are restored. */
  lemma {:induction false} JoinSplit(text: string)
    ensures Join(Split(text)) == text
  {
    if |text| == 0 {
    } else {
      var rest := Split(text[1..]);
      JoinSplit(text[1..]);
      if text[0] == '\n' {
        assert Split(text) == [""] + rest;
        assert Split(text)[1..] == rest;
        assert text == [text[0]] + text[1..];
      } else {
        var pieces := Split(text);
        assert pieces == [[text[0]] + rest[0]] + rest[1..];
        if |rest| == 1 {
          assert text == [text[0]] + text[1..];
        } else {
          assert pieces[1..] == rest[1..];
          assert Join(rest) == rest[0] + "\n" + Join(rest[1..]);
          assert text == [text[0]] + text[1..];
        }
      }
    }
  }

  /** A line without a newline splits into itself. */
  lemma {:induction false} SplitPlain(line: string)
    requires '\n' !in line
    ensures Split(line) == [line]
  {
    if |line| > 0 {
      SplitPlain(line[1..]);
      assert line == [line[0]] + line[1..];
    }
  }

  /** The first newline ends the first piece. */
  lemma {:induction false} SplitAtNewline(line: string, rest: string)
    requires '\n' !in line
    ensures Split(line + "\n" + rest) == [line] + Split(rest)
  {
    if |line| == 0 {
      assert line + "\n" + rest == "\n" + rest;
      assert ("\n" + rest)[1..] == rest;
    } else {
      SplitAtNewline(line[1..], rest);
      assert (line + "\n" + rest)[1..] == line[1..] + "\n" + rest;
      assert line == [line[0]] + line[1..];
    }
  }

  /** Joining then splitting gives the lines back when none of them holds a newline. */
  lemma {:induction false} SplitJoin(lines: seq<string>)
    requires |lines| >= 1
    requires forall i :: 0 <= i < |lines| ==> '\n' !in lines[i]
    ensures Split(Join(lines)) == lines
  {
    if |lines| == 1 {
      SplitPlain(lines[0]);
    } else {
      SplitJoin(lines[1..]);
      SplitAtNewline(lines[0], Join(lines[1..]));
      assert lines == [lines[0]] + lines[1..];
    }
  }

  /** The first line of the text is the first line joined, whatever follows it. */
  lemma {:induction false} SplitJoinFirst(lines: seq<string>)
    requires |lines| >= 1 && '\n' !in lines[0]
    ensures Split(Join(lines))[0] == lines[0]
  {
    if |lines| == 1 {
      SplitPlain(lines[0]);
    } else {
      SplitAtNewline(lines[0], Join(lines[1..]));
    }
  }
}

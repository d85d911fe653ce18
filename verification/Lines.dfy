/** `text.split('\n')` and its inverse. */
module Lines {

  const NEWLINE := '\n'

  function Split(t: string): (lines: seq<string>)
    ensures |lines| >= 1
  {
    if t == "" then [""]
    else
      var rest := Split(t[1..]);
      if t[0] == NEWLINE then [""] + rest
      else [[t[0]] + rest[0]] + rest[1..]
  }

  function Join(lines: seq<string>): string {
    if |lines| == 0 then ""
    else if |lines| == 1 then lines[0]
    else lines[0] + [NEWLINE] + Join(lines[1..])
  }

  ghost predicate NoNewlines(lines: seq<string>) {
    forall k :: 0 <= k < |lines| ==> NEWLINE !in lines[k]
  }

  /** Splitting cuts at every newline and loses nothing. */
  lemma {:induction false} JoinSplit(t: string)
    ensures Join(Split(t)) == t
    ensures NoNewlines(Split(t))
  {
    if t != "" {
      JoinSplit(t[1..]);
      var rest := Split(t[1..]);
      assert t == [t[0]] + t[1..];
      if t[0] == NEWLINE {
        assert Split(t)[1..] == rest;
      } else {
        assert Split(t)[1..] == rest[1..];
      }
    }
  }

  /** Splitting is the only way to cut a text into newline-free lines. */
  lemma {:induction false} SplitJoin(lines: seq<string>)
    requires |lines| >= 1 && NoNewlines(lines)
    ensures Split(Join(lines)) == lines
    decreases |lines|, |lines[0]|
  {
    var t := Join(lines);
    if |lines[0]| > 0 {
      var shorter := [lines[0][1..]] + lines[1..];
      assert shorter[1..] == lines[1..];
      assert lines[0] == [lines[0][0]] + lines[0][1..];
      assert t[1..] == Join(shorter);
      SplitJoin(shorter);
    } else if |lines| > 1 {
      assert t[1..] == Join(lines[1..]);
      SplitJoin(lines[1..]);
    } else {
      assert lines == [""];
    }
  }
}

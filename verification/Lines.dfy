/** Streams of characters cut at their newlines. */
module Lines {
  import opened Text

  /** `bytes.IndexByte` for the newline. */
  function FirstNewline(data: string): (i: nat)
    ensures i <= |data| && '\n' !in data[..i] && (i < |data| ==> data[i] == '\n')
  {
    if data == "" || data[0] == '\n' then 0
    else
      var i := 1 + FirstNewline(data[1..]);
      assert data[..i] == [data[0]] + data[1..][..i - 1];
      i
  }

  /** The lines of a stream, each with its newline, the last possibly without. */
  function LineList(parts: seq<string>): (lines: seq<string>)
    requires parts != []
    decreases |parts|
  {
    if |parts| == 1 then (if parts[0] == "" then [] else [parts[0]])
    else [parts[0] + "\n"] + LineList(parts[1..])
  }

  function Concat(lines: seq<string>): string {
    if lines == [] then "" else lines[0] + Concat(lines[1..])
  }

  /** No byte of the stream is lost or moved by cutting it into lines. */
  lemma {:induction false} LinesAreTheStream(data: string)
    ensures Concat(LineList(Split(data, '\n'))) == data
  {
    JoinSplit(data, '\n');
    ConcatIsJoin(Split(data, '\n'));
  }

  lemma {:induction false} ConcatIsJoin(parts: seq<string>)
    requires parts != []
    ensures Concat(LineList(parts)) == Join(parts, '\n')
    decreases |parts|
  {
    if |parts| == 1 {
      assert parts[0] + "" == parts[0];
    } else {
      ConcatIsJoin(parts[1..]);
      var lines := LineList(parts);
      assert lines[1..] == LineList(parts[1..]);
      assert parts[0] + "\n" == parts[0] + ['\n'];
    }
  }

  // ----- a stream taken in one character at a time -----

  function Fold<S>(st: S, data: string, step: (S, char) -> S): S
    decreases |data|
  {
    if data == "" then st else Fold(step(st, data[0]), data[1..], step)
  }

  /** How the stream is cut into chunks does not matter. */
  lemma {:induction false} FoldJoin<S>(st: S, a: string, b: string, step: (S, char) -> S)
    ensures Fold(st, a + b, step) == Fold(Fold(st, a, step), b, step)
    decreases |a|
  {
    if a == "" {
      assert a + b == b;
    } else {
      assert (a + b)[1..] == a[1..] + b;
      FoldJoin(step(st, a[0]), a[1..], b, step);
    }
  }
}

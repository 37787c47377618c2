/** `split_long_message` (src/utils.py): cut a message into chunks of at most
    five lines so that each chunk fits in one chat message. */
module Utils {
  import opened Common
  import opened Strings

  /** Lines per chunk (`n = 5`). */
  const ChunkLines: nat := 5

  /** The lines of chunk `i`: the slice `lines[i*5 : (i+1)*5]`, clamped. */
  function ChunkOf(lines: seq<string>, i: nat): seq<string>
    requires i * ChunkLines < |lines|
  {
    lines[i * ChunkLines .. Min((i + 1) * ChunkLines, |lines|)]
  }

  lemma ChunkCount(count: nat, i: nat)
    requires count >= 1 && i < (count + ChunkLines - 1) / ChunkLines
    ensures i * ChunkLines < count
    ensures i + 1 < (count + ChunkLines - 1) / ChunkLines ==> (i + 1) * ChunkLines < count
  {
  }

  /** Appending the next chunk keeps "the chunks so far join to the lines so far". */
  lemma JoinNextChunk(lines: seq<string>, out: seq<string>, i: nat)
    requires i * ChunkLines < |lines|
    requires i > 0 ==> out != [] && Join("\n", out) == Join("\n", lines[..i * ChunkLines])
    requires i == 0 ==> out == []
    ensures Join("\n", out + [Join("\n", ChunkOf(lines, i))])
         == Join("\n", lines[..Min((i + 1) * ChunkLines, |lines|)])
  {
    var chunk := ChunkOf(lines, i);
    var upto := Min((i + 1) * ChunkLines, |lines|);
    if i > 0 {
      JoinAppend("\n", out, [Join("\n", chunk)]);
      JoinAppend("\n", lines[..i * ChunkLines], chunk);
      assert lines[..i * ChunkLines] + chunk == lines[..upto];
    } else {
      assert chunk == lines[..upto];
    }
  }

  /** A chunk, split again at its newlines, has the chunk's lines: at most
      five, and exactly five unless it is the last chunk. */
  lemma ChunkLineCount(lines: seq<string>, i: nat)
    requires forall k :: 0 <= k < |lines| ==> '\n' !in lines[k]
    requires i < (|lines| + ChunkLines - 1) / ChunkLines
    ensures i * ChunkLines < |lines|
    ensures |SplitOn(Join("\n", ChunkOf(lines, i)), '\n')| <= ChunkLines
    ensures i + 1 < (|lines| + ChunkLines - 1) / ChunkLines ==>
              |SplitOn(Join("\n", ChunkOf(lines, i)), '\n')| == ChunkLines
  {
    ChunkCount(|lines|, i);
    SplitJoin(ChunkOf(lines, i), '\n');
  }

  /** Every chunk holds at most five lines, every chunk but the last exactly
      five, and a message without a newline is its own only chunk. */
  lemma ChunkSizes(s: string, out: seq<string>)
    requires var lines := SplitOn(s, '\n');
      && |out| == (|lines| + ChunkLines - 1) / ChunkLines
      && forall i :: 0 <= i < |out| ==> i * ChunkLines < |lines| && out[i] == Join("\n", ChunkOf(lines, i))
    ensures forall i :: 0 <= i < |out| ==> |SplitOn(out[i], '\n')| <= ChunkLines
    ensures forall i :: 0 <= i < |out| - 1 ==> |SplitOn(out[i], '\n')| == ChunkLines
    ensures '\n' !in s ==> out == [s]
  {
    var lines := SplitOn(s, '\n');
    forall i | 0 <= i < |out|
      ensures |SplitOn(out[i], '\n')| <= ChunkLines
      ensures i < |out| - 1 ==> |SplitOn(out[i], '\n')| == ChunkLines
    {
      ChunkLineCount(lines, i);
    }
    if '\n' !in s {
      SplitOnNoSep(s, '\n');
      assert ChunkOf(lines, 0) == [s];
    }
  }

  method SplitLongMessage(s: string) returns (out: seq<string>)
    ensures var lines := SplitOn(s, '\n');
      && |out| == (|lines| + ChunkLines - 1) / ChunkLines
      && forall i :: 0 <= i < |out| ==> i * ChunkLines < |lines| && out[i] == Join("\n", ChunkOf(lines, i))
    ensures Join("\n", out) == s
    ensures forall i :: 0 <= i < |out| ==> |SplitOn(out[i], '\n')| <= ChunkLines
    ensures forall i :: 0 <= i < |out| - 1 ==> |SplitOn(out[i], '\n')| == ChunkLines
    ensures '\n' !in s ==> out == [s]
  {
    var lines := SplitOn(s, '\n');
    var count := (|lines| + ChunkLines - 1) / ChunkLines;
    out := [];
    for i := 0 to count
      invariant |out| == i
      invariant forall j :: 0 <= j < i ==> j * ChunkLines < |lines| && out[j] == Join("\n", ChunkOf(lines, j))
      invariant i > 0 ==> out != [] && Join("\n", out) == Join("\n", lines[..Min(i * ChunkLines, |lines|)])
    {
      ChunkCount(|lines|, i);
      JoinNextChunk(lines, out, i);
      ghost var before := out;
      out := out + [Join("\n", lines[i * ChunkLines .. Min((i + 1) * ChunkLines, |lines|)])];
      assert out[..i] == before && out[i] == Join("\n", ChunkOf(lines, i));
    }
    assert lines[..Min(count * ChunkLines, |lines|)] == lines;
    ChunkSizes(s, out);
  }
}

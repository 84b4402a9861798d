/** Reading the last lines of a log file backwards, one chunk at a time. */
module LogTail {

  newtype byte = x: int | 0 <= x < 256

  type Bytes = seq<byte>

  const NEWLINE: byte := 10
  const DEFAULT_LINES := 200

  // Lines

  function Newlines(s: Bytes): nat {
    if s == [] then 0 else (if s[0] == NEWLINE then 1 else 0) + Newlines(s[1..])
  }

  /** The pieces between newlines; there is always at least one. */
  function Split(s: Bytes): (pieces: seq<Bytes>)
    ensures |pieces| == Newlines(s) + 1
  {
    if s == [] then [[]]
    else
      var rest := Split(s[1..]);
      if s[0] == NEWLINE then [[]] + rest else [[s[0]] + rest[0]] + rest[1..]
  }

  function Join(lines: seq<Bytes>): Bytes {
    if lines == [] then []
    else if |lines| == 1 then lines[0]
    else lines[0] + [NEWLINE] + Join(lines[1..])
  }

  function DropFinalEmpty(lines: seq<Bytes>): seq<Bytes> {
    if lines != [] && lines[|lines| - 1] == [] then lines[..|lines| - 1] else lines
  }

  function LastOf(lines: seq<Bytes>, n: nat): seq<Bytes> {
    if |lines| > n then lines[|lines| - n..] else lines
  }

  function Wanted(n: int): (k: nat)
    ensures k >= 1
  {
    if n <= 0 then DEFAULT_LINES else n
  }

  /** The plain definition: split the whole file, keep the last lines. */
  function LastLines(file: Bytes, n: int): Bytes {
    Join(LastOf(DropFinalEmpty(Split(file)), Wanted(n)))
  }

  // Splitting a concatenation

  lemma {:induction false} NewlinesConcat(a: Bytes, b: Bytes)
    ensures Newlines(a + b) == Newlines(a) + Newlines(b)
  {
    if a == [] {
      assert a + b == b;
    } else {
      assert (a + b)[1..] == a[1..] + b;
      NewlinesConcat(a[1..], b);
    }
  }

  /** Two lists of pieces put together: the last of one and the first of the other become one. */
  function Meld(x: seq<Bytes>, y: seq<Bytes>): seq<Bytes>
    requires x != [] && y != []
  {
    x[..|x| - 1] + [x[|x| - 1] + y[0]] + y[1..]
  }

  lemma {:induction false} SplitConcat(a: Bytes, b: Bytes)
    ensures Split(a + b) == Meld(Split(a), Split(b))
  {
    if a == [] {
      assert a + b == b && [] + Split(b)[0] == Split(b)[0];
    } else {
      hide Meld;
      assert (a + b)[1..] == a[1..] + b && (a + b)[0] == a[0];
      SplitConcat(a[1..], b);
      MeldBehind([], Split(a[1..]), Split(b));
      MeldFirst(a[0], Split(a[1..]), Split(b));
    }
  }

  lemma MeldBehind(head: Bytes, x: seq<Bytes>, y: seq<Bytes>)
    requires x != [] && y != []
    ensures Meld([head] + x, y) == [head] + Meld(x, y)
  {
    assert ([head] + x)[..|x|] == [head] + x[..|x| - 1];
  }

  lemma MeldFirst(c: byte, x: seq<Bytes>, y: seq<Bytes>)
    requires x != [] && y != []
    ensures [[c] + Meld(x, y)[0]] + Meld(x, y)[1..] == Meld([[c] + x[0]] + x[1..], y)
  {
    if |x| == 1 {
      assert [c] + (x[0] + y[0]) == [c] + x[0] + y[0];
    }
  }

  /** Looking at the end of a meld only, its front part does not show. */
  lemma MeldEnd(x: seq<Bytes>, y: seq<Bytes>, n: nat)
    requires x != [] && |y| >= n + 2
    ensures LastOf(DropFinalEmpty(Meld(x, y)), n) == LastOf(DropFinalEmpty(y)[1..], n)
  {
    var head := x[..|x| - 1] + [x[|x| - 1] + y[0]];
    assert Meld(x, y) == head + y[1..];
    DropInLastPart(head, y[1..]);
    LastInLastPart(head, DropFinalEmpty(y[1..]), n);
    if y[|y| - 1] == [] {
      assert y[..|y| - 1][1..] == y[1..][..|y| - 2];
    }
  }

  lemma DropInLastPart(x: seq<Bytes>, y: seq<Bytes>)
    requires y != []
    ensures DropFinalEmpty(x + y) == x + DropFinalEmpty(y)
  {
    var whole := x + y;
    assert whole[|whole| - 1] == y[|y| - 1];
    assert whole[..|whole| - 1] == x + y[..|y| - 1];
  }

  lemma LastInLastPart(x: seq<Bytes>, y: seq<Bytes>, n: nat)
    requires |y| >= n
    ensures LastOf(x + y, n) == LastOf(y, n)
  {
    if |x| > 0 {
      assert (x + y)[|x + y| - n..] == y[|y| - n..];
    } else {
      assert x + y == y;
    }
    assert y[0..] == y;
  }

  /**
   A suffix with more newlines than lines are wanted is enough: leaving out its first,
   possibly torn, piece gives the same last lines as the whole file.
   */
  lemma SuffixIsEnough(front: Bytes, data: Bytes, n: nat)
    requires Newlines(data) > n
    ensures LastOf(DropFinalEmpty(Split(front + data)), n) == LastOf(DropFinalEmpty(Split(data))[1..], n)
  {
    SplitConcat(front, data);
    MeldEnd(Split(front), Split(data), n);
  }

  // The reader

  /** Chunks are collected back to front. */
  function Assembled(chunks: seq<Bytes>): Bytes {
    if chunks == [] then [] else chunks[|chunks| - 1] + Assembled(chunks[..|chunks| - 1])
  }

  method ReadBackwards(file: Bytes, n: nat, chunkSize: nat) returns (chunks: seq<Bytes>, total: nat, position: nat)
    requires chunkSize > 0
    ensures position <= |file| && Assembled(chunks) == file[position..] && total == |file| - position
    ensures position > 0 ==> Newlines(file[position..]) > n
  {
    chunks, total, position := [], 0, |file|;
    var newlines := 0;
    while position > 0
      invariant position <= |file| && total == |file| - position
      invariant Assembled(chunks) == file[position..]
      invariant newlines == Newlines(file[position..])
    {
      var start := if position < chunkSize then 0 else position - chunkSize;
      var chunk := file[start..position];
      chunks := chunks + [chunk];
      total := total + |chunk|;
      NewlinesConcat(chunk, file[position..]);
      assert chunk + file[position..] == file[start..];
      newlines := newlines + Newlines(chunk);
      position := start;
      if newlines > n {
        break;
      }
    }
  }

  lemma {:induction false} AssembledSplit(chunks: seq<Bytes>, i: nat)
    requires i < |chunks|
    ensures |Assembled(chunks[..i + 1])| == |chunks[i]| + |Assembled(chunks[..i])|
    ensures Assembled(chunks[..i + 1]) == chunks[i] + Assembled(chunks[..i])
  {
    assert chunks[..i + 1][..i] == chunks[..i];
  }

  method Concatenate(chunks: seq<Bytes>, total: nat) returns (data: array<byte>)
    requires total == |Assembled(chunks)|
    ensures data[..] == Assembled(chunks)
  {
    data := new byte[total];
    var offset := 0;
    var i := |chunks|;
    assert chunks[..i] == chunks;
    while i > 0
      invariant 0 <= i <= |chunks|
      invariant 0 <= offset <= data.Length && offset + |Assembled(chunks[..i])| == total == data.Length
      invariant data[..offset] + Assembled(chunks[..i]) == Assembled(chunks)
    {
      i := i - 1;
      AssembledSplit(chunks, i);
      Copy(data, offset, chunks[i]);
      offset := offset + |chunks[i]|;
    }
    assert data[..offset] == data[..];
  }

  method Copy(data: array<byte>, offset: nat, source: Bytes)
    requires offset + |source| <= data.Length
    modifies data
    ensures data[..offset + |source|] == old(data[..offset]) + source
  {
    for k := 0 to |source|
      invariant data[..offset + k] == old(data[..offset]) + source[..k]
    {
      data[offset + k] := source[k];
      assert data[..offset + k + 1] == data[..offset + k] + [source[k]];
    }
  }

  method TailFile(file: Bytes, n: int, chunkSize: nat) returns (text: Bytes)
    requires chunkSize > 0
    ensures text == LastLines(file, n)
  {
    hide Split, Join, Newlines, Assembled;
    var wanted := if n <= 0 then DEFAULT_LINES else n;
    if |file| == 0 {
      EmptyFile(n);
      return [];
    }
    var chunks, total, position := ReadBackwards(file, wanted, chunkSize);
    var data := Concatenate(chunks, total);
    var lines := Split(data[..]);
    if |lines| > 0 && lines[|lines| - 1] == [] {
      lines := lines[..|lines| - 1];
    }
    if position > 0 && |lines| > 0 {
      lines := lines[1..];
    }
    if |lines| > wanted {
      lines := lines[|lines| - wanted..];
    }
    assert file == file[..position] + file[position..];
    if position > 0 {
      SuffixIsEnough(file[..position], file[position..], wanted);
    }
    return Join(lines);
  }

  lemma EmptyFile(n: int)
    ensures LastLines([], n) == []
  {
  }

  // What the last lines are, without splitting

  lemma {:induction false} JoinSplit(s: Bytes)
    ensures Join(Split(s)) == s
  {
    if s != [] {
      var rest := Split(s[1..]);
      JoinSplit(s[1..]);
      if |rest| > 1 && s[0] != NEWLINE {
        assert ([[s[0]] + rest[0]] + rest[1..])[1..] == rest[1..];
      } else if s[0] == NEWLINE {
        assert ([[]] + rest)[1..] == rest;
      }
    }
  }

  lemma {:induction false} JoinConcat(a: seq<Bytes>, b: seq<Bytes>)
    requires a != [] && b != []
    ensures Join(a + b) == Join(a) + [NEWLINE] + Join(b)
  {
    assert (a + b)[1..] == a[1..] + b;
    if |a| > 1 {
      JoinConcat(a[1..], b);
    } else {
      assert a[1..] + b == b;
    }
  }

  /** A piece has no newline in it. */
  predicate Plain(lines: seq<Bytes>) {
    forall l :: l in lines ==> Newlines(l) == 0
  }

  lemma {:induction false} PiecesArePlain(s: Bytes)
    ensures Plain(Split(s))
  {
    if s != [] {
      PiecesArePlain(s[1..]);
      var rest := Split(s[1..]);
      assert rest[0] in rest;
      assert ([s[0]] + rest[0])[1..] == rest[0];
    }
  }

  lemma {:induction false} JoinedNewlines(lines: seq<Bytes>)
    requires lines != [] && Plain(lines)
    ensures Newlines(Join(lines)) == |lines| - 1
  {
    assert lines[0] in lines;
    if |lines| > 1 {
      JoinedNewlines(lines[1..]);
      NewlinesConcat(lines[0], [NEWLINE]);
      NewlinesConcat(lines[0] + [NEWLINE], Join(lines[1..]));
    }
  }

  /** The file without one final newline. */
  function Body(file: Bytes): Bytes {
    if file != [] && file[|file| - 1] == NEWLINE then file[..|file| - 1] else file
  }

  lemma {:induction false} LastPiece(s: Bytes)
    ensures Split(s)[|Split(s)| - 1] == [] <==> s == [] || s[|s| - 1] == NEWLINE
  {
    if |s| > 1 {
      LastPiece(s[1..]);
    } else if |s| == 1 {
      assert Split(s[1..]) == [[]];
    }
  }

  lemma NothingJoined()
    ensures Join([]) == [] && Join([[]]) == [] && Split([]) == [[]]
    ensures Split([NEWLINE]) == [[], []]
  {
    assert [NEWLINE][1..] == [];
  }

  lemma BodyIsJoinedLines(file: Bytes)
    ensures Join(DropFinalEmpty(Split(file))) == Body(file)
  {
    hide Split, Join;
    JoinSplit(file);
    LastPiece(file);
    NothingJoined();
    var lines := DropFinalEmpty(Split(file));
    if file != [] && file[|file| - 1] == NEWLINE {
      assert Split(file) == lines + [[]];
      if lines != [] {
        JoinConcat(lines, [[]]);
      }
    }
  }

  /**
   The result is the end of the file, up to a final newline: the whole of it if that has
   fewer than n newlines, and otherwise what follows a newline and holds n - 1 of them.
   */
  lemma LastLinesMeaning(file: Bytes, n: int)
    ensures var text, body := LastLines(file, n), Body(file);
            if Newlines(body) < Wanted(n) then text == body
            else Newlines(text) == Wanted(n) - 1 && exists front :: body == front + [NEWLINE] + text
  {
    var lines, k := DropFinalEmpty(Split(file)), Wanted(n);
    BodyIsJoinedLines(file);
    PiecesArePlain(file);
    assert Plain(lines);
    if lines != [] {
      JoinedNewlines(lines);
      if |lines| > k {
        var front, back := lines[..|lines| - k], lines[|lines| - k..];
        assert lines == front + back;
        JoinConcat(front, back);
        JoinedNewlines(back);
      }
    }
  }
}

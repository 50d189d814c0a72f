/** `lsh_read_line`: read one line of the standard input, character by
    character, into a heap buffer that grows in chunks of LSH_RL_BUFSIZE bytes.

    The input stream is a sequence of the values `getchar` returns, in order:
    bytes 0..255, or EOF. Once the sequence is used up, `getchar` keeps
    returning EOF, as it does at the end of a real stream. */
module LineReader {
  import Memory
  import TokenSpec

  /** The value of C's EOF macro. */
  const EOF: int := -1
  /** LSH_RL_BUFSIZE: the initial size of the line buffer and its growth step. */
  const RL_BUFSIZE: nat := 1024

  /** What `getchar` can return: EOF or an unsigned char. */
  predicate IsByteStream(input: seq<int>) {
    forall k :: 0 <= k < |input| ==> input[k] == EOF || 0 <= input[k] < 256
  }

  /** The value returned by the `k`-th call of `getchar` (counting from 0). */
  function GetChar(input: seq<int>, k: nat): int {
    if k < |input| then input[k] else EOF
  }

  /** The intended test of c-shell.c:43: end of input or a newline. */
  predicate EndsLine(c: int) {
    c == EOF || c == '\n' as int
  }

  /** The line at the head of the stream: the characters before the first
      newline or EOF, without the newline. */
  function Line(input: seq<int>): (line: seq<char>)
    requires IsByteStream(input)
  {
    if input == [] || EndsLine(input[0]) then []
    else [input[0] as char] + Line(input[1..])
  }

  /** Line is exactly the run of input before the first terminator: every
      character before it is stored unchanged and is no terminator, and the
      next `getchar` call returns newline or EOF. */
  lemma {:induction false} LineIsPrefixBeforeTerminator(input: seq<int>)
    requires IsByteStream(input)
    ensures |Line(input)| <= |input|
    ensures forall k :: 0 <= k < |Line(input)| ==>
              !EndsLine(input[k]) && Line(input)[k] == input[k] as char
    ensures EndsLine(GetChar(input, |Line(input)|))
  {
    if input == [] || EndsLine(input[0]) {
    } else {
      assert IsByteStream(input[1..]);
      LineIsPrefixBeforeTerminator(input[1..]);
      var rest := Line(input[1..]);
      assert Line(input) == [input[0] as char] + rest;
      forall k | 0 <= k < |Line(input)|
        ensures !EndsLine(input[k]) && Line(input)[k] == input[k] as char
      {
        if k > 0 {
          assert input[k] == input[1..][k - 1];
        }
      }
      assert GetChar(input, |Line(input)|) == GetChar(input[1..], |rest|);
    }
  }

  /** The position of the first terminator decides the line: if `n` calls of
      `getchar` return no terminator and the next one does, the line has
      length `n`. */
  lemma LineLength(input: seq<int>, n: nat)
    requires IsByteStream(input)
    requires n <= |input|
    requires forall k :: 0 <= k < n ==> !EndsLine(input[k])
    requires EndsLine(GetChar(input, n))
    ensures |Line(input)| == n
  {
    LineIsPrefixBeforeTerminator(input);
  }

  /** lsh_read_line. Returns the buffer and the number of `getchar` calls it
      made. The buffer holds the line followed by a NUL, every store lands
      inside it, and its size is the initial 1024 plus one 1024-byte chunk per
      time it filled up. The buffer is a new allocation that the caller owns.
      Exactly one character past the line (the newline or EOF) is consumed. */
  method ReadLine(input: seq<int>) returns (buffer: array<char>, consumed: nat)
    requires IsByteStream(input)
    ensures fresh(buffer)
    ensures |Line(input)| < buffer.Length
    ensures buffer[..|Line(input)|] == Line(input)
    ensures buffer[|Line(input)|] == TokenSpec.NUL
    ensures buffer.Length == Memory.GrownSize(|Line(input)|, RL_BUFSIZE)
    ensures consumed == |Line(input)| + 1
  {
    var bufsize := RL_BUFSIZE;
    var position := 0;
    buffer := new char[bufsize];
    while true
      invariant fresh(buffer)
      invariant 0 <= position < bufsize == buffer.Length
      invariant bufsize == Memory.GrownSize(position, RL_BUFSIZE)
      invariant position <= |input|
      invariant forall k :: 0 <= k < position ==>
                  !EndsLine(input[k]) && buffer[k] == input[k] as char
      decreases |input| - position
    {
      // The position-th call of getchar: one character is read per iteration.
      var c := GetChar(input, position);
      if EndsLine(c) {
        buffer[position] := TokenSpec.NUL;
        LineLength(input, position);
        LineIsPrefixBeforeTerminator(input);
        assert buffer[..position] == Line(input);
        return buffer, position + 1;
      } else {
        buffer[position] := c as char;
      }
      Memory.GrowStep(position, RL_BUFSIZE);
      position := position + 1;
      if position >= bufsize {
        bufsize := bufsize + RL_BUFSIZE;
        buffer := Memory.Realloc(buffer, bufsize);
      }
    }
  }
}

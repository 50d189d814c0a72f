/** `lsh_split_line`: cut a line into the argument vector with `strtok`.

    The line is the buffer `lsh_read_line` returned, a NUL-terminated array.
    `strtok` overwrites the delimiter after each token with NUL and hands out
    pointers into the line; a pointer is modelled as an index of the line
    (`At(offset)`) or `Null`. The token array grows in chunks of
    LSH_TOK_BUFSIZE slots and ends with a `Null` slot. */
module Tokenizer {
  import Memory
  import opened TokenSpec

  /** LSH_TOK_BUFSIZE: the initial number of token slots and their growth step. */
  const TOK_BUFSIZE: nat := 64

  /** A `char *`: NULL, or a pointer to the character at `offset` of the line. */
  datatype CharPtr = Null | At(offset: nat)

  /** The outcome of one `strtok` call: the line afterwards, the index where
      the call began scanning, the pointer it returned and the index where the
      next `strtok(NULL, ...)` call will begin. */
  datatype StrtokState = StrtokState(line: seq<char>, from: nat, token: CharPtr, save: nat)

  /** `strtok` on a line with the scan starting at `from`: no token and no
      change, or a pointer to the token, the resume position, and a NUL
      written just after the token (unless the token ends the array). */
  function StrtokFrom(line: seq<char>, from: nat): (st: StrtokState)
    requires from <= |line|
    ensures |st.line| == |line| && st.from == from && from <= st.save <= |line|
  {
    match NextToken(line, from)
    case Exhausted(at) => StrtokState(line, from, Null, at)
    case Found(span, next) =>
      StrtokState(if span.end < |line| then line[span.end := NUL] else line, from, At(span.start), next)
  }

  /** One call of `strtok(p, LSH_TOK_DELIM)` that starts its scan at index
      `from` of `line`: `strtok(line, ...)` starts at 0, `strtok(NULL, ...)`
      at the position the previous call saved, which is returned as `save`.
      The string must be NUL-terminated after `from`. */
  method Strtok(line: array<char>, from: nat) returns (token: CharPtr, save: nat)
    requires from <= line.Length
    requires NUL in line[from..]
    modifies line
    ensures StrtokFrom(old(line[..]), from) == StrtokState(line[..], from, token, save)
  {
    ghost var s := line[..];
    StrtokStep(s, from);
    ghost var q :| from <= q < line.Length && line[q] == NUL;
    var j := SkipDelims(line[..], from);
    if j == line.Length || line[j] == NUL {
      return Null, j;
    }
    assert j <= q;
    var k := TokenEnd(line[..], j);
    assert k <= q;
    if k < line.Length && IsDelim(line[k]) {
      line[k] := NUL;
      return At(j), k + 1;
    }
    assert line[..] == s[k := NUL];
    return At(j), k;
  }

  /** The calls lsh_split_line makes on the line `orig`: `strtok(line, ...)`
      and then `strtok(NULL, ...)` while the previous call found a token.
      `StrtokCalls(orig, k)` is the state after call number `k` (from 0); once
      a call finds nothing, the state stays put. */
  function StrtokCalls(orig: seq<char>, k: nat): (st: StrtokState)
    ensures |st.line| == |orig| && st.save <= |orig|
  {
    if k == 0 then StrtokFrom(orig, 0)
    else
      var prev := StrtokCalls(orig, k - 1);
      if prev.token == Null then prev else StrtokFrom(prev.line, prev.save)
  }

  /** The state after `position` tokens were stored and the last `strtok`
      call started at `cur` and returned `token` and `save`: the spans still
      to come are those from `cur` on, the call returned the next one, and
      the line from `save` on is still the original text. */
  ghost predicate Cutting(orig: seq<char>, line: seq<char>, position: nat, cur: nat, token: CharPtr, save: nat) {
    var spans := Spans(orig, 0);
    var n := CEnd(orig, 0);
    n < |orig| && |line| == |orig| && cur <= n &&
    position <= |spans| && Spans(orig, cur) == spans[position..] &&
    (token == Null <==> NextToken(orig, cur).Exhausted?) &&
    (token != Null ==>
       position < |spans| && token == At(spans[position].start) &&
       save == NextToken(orig, cur).next && cur < save <= n) &&
    (forall k :: save <= k < |line| ==> line[k] == orig[k])
  }

  /** The first `strtok` call establishes the state. */
  lemma CuttingStarts(orig: seq<char>)
    requires NUL in orig
    ensures var st := StrtokFrom(orig, 0); Cutting(orig, st.line, 0, 0, st.token, st.save)
  {
    CStringHasNoNul(orig);
    StepWithinText(orig, 0);
    SpansStep(orig, 0);
  }

  /** While a token was found, the next `strtok(NULL, ...)` call sees from
      `save` on what it would have seen on the original line, which is still
      NUL-terminated there. */
  lemma CuttingResumes(orig: seq<char>, line: seq<char>, position: nat, cur: nat, token: CharPtr, save: nat)
    requires Cutting(orig, line, position, cur, token, save) && token != Null
    ensures save <= |line| && NUL in line[save..]
    ensures NextToken(line, save) == NextToken(orig, save)
  {
    var n := CEnd(orig, 0);
    assert line[n] == NUL;
    assert line[save..][n - save] == NUL;
    NextTokenFrame(line, orig, save);
  }

  /** The spans still to come after the next call, and where its token lies. */
  lemma CuttingAdvances(orig: seq<char>, position: nat, cur: nat, save: nat)
    requires NUL in orig && CEnd(orig, 0) < |orig| && cur <= |orig|
    requires position < |Spans(orig, 0)| && Spans(orig, cur) == Spans(orig, 0)[position..]
    requires NextToken(orig, cur).Found? && save == NextToken(orig, cur).next
    requires save <= |orig|
    ensures Spans(orig, save) == Spans(orig, 0)[position + 1..]
    ensures NextToken(orig, save).Found? ==>
              position + 1 < |Spans(orig, 0)| &&
              Spans(orig, 0)[position + 1] == NextToken(orig, save).span
  {
    SpansStep(orig, cur);
    DropFirst(Spans(orig, 0), position, NextToken(orig, cur).span, Spans(orig, save));
    SpansStep(orig, save);
  }

  /** Taking the first element off the suffix of `xs` that starts at `p`. */
  lemma DropFirst<T>(xs: seq<T>, p: nat, x: T, ys: seq<T>)
    requires p < |xs| && xs[p..] == [x] + ys
    ensures ys == xs[p + 1..]
    ensures ys != [] ==> p + 1 < |xs| && xs[p + 1] == ys[0]
  {
    assert xs[p..][1..] == xs[p + 1..];
    if ys != [] {
      assert xs[p + 1..][0] == xs[p + 1];
    }
  }

  /** Storing the token and calling `strtok(NULL, ...)` keeps the state. */
  lemma CuttingSteps(orig: seq<char>, line: seq<char>, position: nat, cur: nat, token: CharPtr, save: nat)
    requires Cutting(orig, line, position, cur, token, save) && token != Null
    ensures save <= |line|
    ensures var st := StrtokFrom(line, save); Cutting(orig, st.line, position + 1, save, st.token, st.save)
  {
    var spans := Spans(orig, 0);
    CuttingResumes(orig, line, position, cur, token, save);
    CuttingAdvances(orig, position, cur, save);
    StepWithinText(orig, save);
    var st := StrtokFrom(line, save);
    if st.token != Null {
      var span := NextToken(orig, save).span;
      assert spans[..position + 2][..position + 1] == spans[..position + 1];
      assert st.line == line[span.end := NUL];
    }
  }

  /** A step that starts inside the C string stays inside it; a token is
      followed by a delimiter that the step skips, unless it ends the string.
      The bounds of `StepOnText` alone, without its quantified facts about the
      text, which the callers here do not need. */
  lemma StepWithinText(s: seq<char>, from: nat)
    requires from <= CEnd(s, 0)
    ensures NextToken(s, from).Found? ==>
              var r := NextToken(s, from);
              from <= r.span.start < r.span.end <= r.next <= CEnd(s, 0) &&
              (r.next == r.span.end ==> r.span.end == CEnd(s, 0))
  {
    StepOnText(s, from);
  }

  /** What the state after call number `k` means, as long as every earlier
      call found a token. */
  lemma {:induction false} StrtokCallsCut(orig: seq<char>, k: nat)
    requires NUL in orig
    requires k > 0 ==> StrtokCalls(orig, k - 1).token != Null
    ensures var st := StrtokCalls(orig, k); Cutting(orig, st.line, k, st.from, st.token, st.save)
  {
    if k == 0 {
      CuttingStarts(orig);
    } else {
      var prev := StrtokCalls(orig, k - 1);
      StrtokCallsCut(orig, k - 1);
      CuttingSteps(orig, prev.line, k - 1, prev.from, prev.token, prev.save);
    }
  }

  /** While the calls find tokens, each resumes further on in the line, which
      is still NUL-terminated there, so the next call may be made. */
  lemma StrtokCallsResume(orig: seq<char>, k: nat)
    requires NUL in orig
    requires k > 0 ==> StrtokCalls(orig, k - 1).token != Null
    ensures var st := StrtokCalls(orig, k);
            st.token != Null ==> st.from < st.save && NUL in st.line[st.save..]
    ensures var st := StrtokCalls(orig, k);
            st.token != Null ==> k < |Spans(orig, 0)| && st.token == At(Spans(orig, 0)[k].start)
  {
    var st := StrtokCalls(orig, k);
    StrtokCallsCut(orig, k);
    if st.token != Null {
      CuttingResumes(orig, st.line, k, st.from, st.token, st.save);
    }
  }

  /** The pointers returned by the first `k` calls, in order. */
  function Returned(orig: seq<char>, k: nat): (ptrs: seq<CharPtr>)
    ensures |ptrs| == k
  {
    if k == 0 then [] else Returned(orig, k - 1) + [StrtokCalls(orig, k - 1).token]
  }

  /** While the calls find tokens, call `k` returns a pointer to the start of
      token `k`. */
  lemma {:induction false} ReturnedAreStarts(orig: seq<char>, k: nat)
    requires NUL in orig
    requires k > 0 ==> StrtokCalls(orig, k - 1).token != Null
    ensures k <= |Spans(orig, 0)|
    ensures Returned(orig, k) == Pointers(Spans(orig, 0)[..k])
  {
    var spans := Spans(orig, 0);
    if k > 0 {
      var st := StrtokCalls(orig, k - 1);
      StrtokCallsCut(orig, k - 1);
      ReturnedAreStarts(orig, k - 1);
      assert spans[..k] == spans[..k - 1] + [spans[k - 1]];
    }
  }

  /** The first call that finds no token comes right after the last token:
      the calls returned a pointer to every token, in order, and the line is
      cut after each of them. */
  lemma StrtokCallsEnd(orig: seq<char>, k: nat)
    requires NUL in orig
    requires k > 0 ==> StrtokCalls(orig, k - 1).token != Null
    requires StrtokCalls(orig, k).token == Null
    ensures k == |Spans(orig, 0)|
    ensures StrtokCalls(orig, k).line == Terminate(orig, Spans(orig, 0))
    ensures Returned(orig, k) == Pointers(Spans(orig, 0))
  {
    var st := StrtokCalls(orig, k);
    StrtokCallsCut(orig, k);
    CuttingEnds(orig, st.line, k, st.from, st.save);
    StrtokCallsText(orig, k);
    ReturnedAreStarts(orig, k);
    assert Spans(orig, 0)[..k] == Spans(orig, 0);
  }

  /** Call number `k` leaves the line cut after every token found so far. */
  lemma {:induction false} StrtokCallsText(orig: seq<char>, k: nat)
    requires NUL in orig
    requires k > 0 ==> StrtokCalls(orig, k - 1).token != Null
    ensures StrtokCalls(orig, k).token != Null ==> k < |Spans(orig, 0)|
    ensures k <= |Spans(orig, 0)|
    ensures var st := StrtokCalls(orig, k);
            st.line == Terminate(orig, Spans(orig, 0)[..if st.token == Null then k else k + 1])
  {
    StrtokCallsCut(orig, k);
    if k == 0 {
      var spans := Spans(orig, 0);
      SpansStep(orig, 0);
      StepWithinText(orig, 0);
      if StrtokCalls(orig, 0).token != Null {
        TerminateNext(orig, spans, 0);
      }
    } else {
      StrtokCallsText(orig, k - 1);
      StrtokCallsTextStep(orig, k);
    }
  }

  /** The step of StrtokCallsText: call `k` cuts after token `k`. */
  lemma StrtokCallsTextStep(orig: seq<char>, k: nat)
    requires NUL in orig
    requires k > 0 && StrtokCalls(orig, k - 1).token != Null
    requires k - 1 < |Spans(orig, 0)|
    requires StrtokCalls(orig, k - 1).line == Terminate(orig, Spans(orig, 0)[..k])
    ensures var st := StrtokCalls(orig, k);
            st.token != Null ==>
              k < |Spans(orig, 0)| && st.line == Terminate(orig, Spans(orig, 0)[..k + 1])
    ensures var st := StrtokCalls(orig, k);
            st.token == Null ==> st.line == Terminate(orig, Spans(orig, 0)[..k])
  {
    var spans := Spans(orig, 0);
    var prev := StrtokCalls(orig, k - 1);
    StrtokCallsCut(orig, k - 1);
    CuttingResumes(orig, prev.line, k - 1, prev.from, prev.token, prev.save);
    CuttingAdvances(orig, k - 1, prev.from, prev.save);
    StepWithinText(orig, prev.save);
    if StrtokCalls(orig, k).token != Null {
      TerminateNext(orig, spans, k);
    }
  }

  /** Cutting after one more token. */
  lemma TerminateNext(s: seq<char>, spans: seq<Span>, k: nat)
    requires k < |spans|
    ensures var t := Terminate(s, spans[..k]);
            Terminate(s, spans[..k + 1]) == if spans[k].end < |t| then t[spans[k].end := NUL] else t
  {
    assert spans[..k + 1][..k] == spans[..k];
  }

  /** When `strtok` reports no more tokens, every token has been found. */
  lemma CuttingEnds(orig: seq<char>, line: seq<char>, position: nat, cur: nat, save: nat)
    requires Cutting(orig, line, position, cur, Null, save)
    ensures position == |Spans(orig, 0)|
  {
  }

  /** The pointers to the starts of the spans, in order. */
  function Pointers(spans: seq<Span>): (ptrs: seq<CharPtr>)
    ensures |ptrs| == |spans|
    ensures forall i :: 0 <= i < |spans| ==> ptrs[i] == At(spans[i].start)
  {
    if spans == [] then [] else Pointers(spans[..|spans| - 1]) + [At(spans[|spans| - 1].start)]
  }

  /** `tokens[position] = token; position++;` followed by the growth step of
      lsh_split_line: when the array is full it is reallocated one chunk
      larger, keeping the stored tokens. */
  method Append(tokens: array<CharPtr>, position: nat, token: CharPtr) returns (grown: array<CharPtr>)
    requires position < tokens.Length == Memory.GrownSize(position, TOK_BUFSIZE)
    modifies tokens
    ensures grown == tokens || fresh(grown)
    ensures grown.Length == Memory.GrownSize(position + 1, TOK_BUFSIZE)
    ensures grown[..position + 1] == old(tokens[..position]) + [token]
  {
    tokens[position] := token;
    Memory.GrowStep(position, TOK_BUFSIZE);
    grown := tokens;
    if position + 1 >= tokens.Length {
      grown := Memory.Realloc(tokens, tokens.Length + TOK_BUFSIZE);
      assert grown[..position + 1] == grown[..tokens.Length][..position + 1];
    }
    assert grown[..position + 1] == tokens[..position + 1];
  }

  /** lsh_split_line. `count` is the number of tokens and `tokens[count]` the
      terminating NULL; before it, the array holds a pointer to the start of
      every token of the original line, in order. The line itself ends up cut
      by a NUL after each token, so the C string at each pointer is that
      token's text (TokensAfterCut). The token array holds the 64 initial
      slots plus one chunk of 64 per time it filled up, so the NULL store
      stays inside it. */
  method SplitLine(line: array<char>) returns (tokens: array<CharPtr>, count: nat)
    requires NUL in line[..]
    modifies line
    ensures fresh(tokens)
    ensures count == |Spans(old(line[..]), 0)| && count < tokens.Length
    ensures tokens.Length == Memory.GrownSize(count, TOK_BUFSIZE)
    ensures tokens[..count] == Pointers(Spans(old(line[..]), 0)) && tokens[count] == Null
    ensures line[..] == Terminate(old(line[..]), Spans(old(line[..]), 0))
  {
    ghost var orig := line[..];

    var position := 0;
    tokens := new CharPtr[TOK_BUFSIZE];

    ghost var cur := 0;
    var token, save := Strtok(line, 0);
    while token != Null
      invariant fresh(tokens)
      invariant position < tokens.Length == Memory.GrownSize(position, TOK_BUFSIZE)
      invariant position > 0 ==> StrtokCalls(orig, position - 1).token != Null
      invariant line[..] == StrtokCalls(orig, position).line
      invariant token == StrtokCalls(orig, position).token
      invariant save == StrtokCalls(orig, position).save
      invariant cur == StrtokCalls(orig, position).from
      invariant tokens[..position] == Returned(orig, position)
      decreases |orig| - cur
    {
      StrtokCallsResume(orig, position);
      tokens := Append(tokens, position, token);
      // strtok(NULL, ...): resume where the previous call stopped.
      cur := save;
      token, save := Strtok(line, save);
      position := position + 1;
    }
    StrtokCallsEnd(orig, position);
    ghost var ptrs := tokens[..position];
    count := position;
    tokens[count] := Null;
    assert tokens[..count] == ptrs;
  }
}

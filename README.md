# lsh: reading and splitting a command line

A model of the two routines of the small `lsh` shell that turn standard input
into an argument vector:

- `lsh_read_line` reads characters with `getchar` into a heap buffer of
  LSH_RL_BUFSIZE (1024) bytes. The buffer grows by another 1024 bytes each
  time it fills. Reading stops at a newline or at end of input. The newline is
  not stored, and the text is ended with a NUL.
- `lsh_split_line` cuts that line with `strtok` on the delimiters space, tab,
  carriage return, newline and bell (LSH_TOK_DELIM). The token pointers go
  into an array of LSH_TOK_BUFSIZE (64) slots that grows by 64 each time it
  fills, and a NULL pointer ends the array. `strtok` writes a NUL after each
  token into the line itself.

The model has four modules:

- `Memory` (memory.dfy): the buffer sizes that both growth loops produce, and
  `realloc` as a copy into a larger array.
- `LineReader` (line_reader.dfy): the input stream and the line at its head
  (`Line`), and `ReadLine`, the imperative read loop over an `array<char>`
  proved against `Line`.
- `TokenSpec` (token_spec.dfy): what splitting means, stated on values.
  `NextToken` is one `strtok` call as section 7.24.5.8 of the C11 standard
  describes it. `Spans` is the list of tokens that repeated calls find, and
  `Words` is their texts. `MaximalRuns` is an independent description of the
  same list: the maximal runs of non-delimiter characters of the C string,
  left to right. `Collapse` is a second reference: a character-by-character
  scan that drops leading and trailing delimiters and turns each run of
  delimiters between words into one space. The lemmas show that the
  tokenizer agrees with both references. They also prove the properties of
  the result: tokens are non-empty and delimiter-free, a blank line has no
  tokens, and splitting words joined by single spaces gives the words back.
- `Tokenizer` (tokenizer.dfy): `Strtok`, which rewrites the line array in
  place, and `SplitLine`, the imperative split loop over the line array and
  the token array. The loop is proved against `StrtokCalls`, the sequence of
  `strtok` calls the loop makes. Lemmas connect that sequence to `Spans`:
  the pointers are the token starts in order, and the line ends up cut after
  every token.

Line 43 of c-shell.c reads `c == EOF || c = '\n'`. That is an assignment to a
non-lvalue, and a C compiler rejects it. The model follows the evident intent,
`c == EOF || c == '\n'` (`LineReader.EndsLine`).

Pointers into the line are modelled as `CharPtr`: `Null`, or `At(offset)`, an
index of the line array. The save pointer that `strtok` keeps between calls is
an explicit index: `Strtok` takes it as `from` and returns it as `save`.

## Model

| member | source | states |
|---|---|---|
| `LineReader.ReadLine` | c-shell.c:29-60 | The buffer is a new allocation that the caller owns and may write into. It holds exactly the input before the first newline or EOF, followed by a NUL. Its size is the 1024 initial bytes plus one 1024-byte chunk per time it filled. Exactly one character past the line (the newline or EOF) is consumed. |
| `LineReader.LineIsPrefixBeforeTerminator` | c-shell.c:40-48 | Every character of the line is the input character at the same position, unchanged and not a terminator. The `getchar` call just after the line returns newline or EOF. |
| `LineReader.LineLength` | c-shell.c:41-45 | If `n` calls return no terminator and the next call does, the line has exactly `n` characters. |
| `Memory.GrownSize` | c-shell.c:49-53 | The size of a buffer grown by whole chunks as `n` elements are stored is always greater than `n`, and at most one chunk more than `n`. |
| `Memory.GrownSizeIsMultiple` | c-shell.c:100-101 | The buffer size is always a whole number of chunks. |
| `Memory.GrowStep` | c-shell.c:99-102 | Storing one more element keeps the size, unless the buffer is now full. Then it grows by exactly one chunk. |
| `Memory.Realloc` | c-shell.c:53 | The new buffer has the requested size and keeps every element of the old one. |
| `TokenSpec.NextToken` | c-shell.c:96 | A `strtok` call that finds no token stops inside the buffer. A call that finds one returns a non-empty range at or after the scan start, and resumes no earlier than the range's end. |
| `TokenSpec.StrtokStep` | c-shell.c:96 | With no token left, only delimiters lie before the stop, which is at NUL or the end of the buffer. Otherwise delimiters lead up to the token. The token is a non-empty run of non-delimiter, non-NUL characters ended by a delimiter, a NUL or the end of the buffer. The next call resumes just after an ending delimiter, and at the token's end otherwise. |
| `TokenSpec.Spans` | c-shell.c:96-109 | Every token the repeated calls find is a non-empty range inside the buffer, at or after the first scan position. |
| `TokenSpec.SpansAreMaximalRuns` | c-shell.c:96-109 | The tokens are maximal runs of non-delimiter characters of the line's text. They are listed left to right, and every non-delimiter character lies in one of them. |
| `TokenSpec.MaximalRunsAreSpans` | c-shell.c:96-109 | A list of ranges is what the split loop finds if and only if it lists the maximal runs of the line's text. |
| `TokenSpec.WordsAreWords` | c-shell.c:85-108 | Every token text is non-empty and holds no delimiter and no NUL. |
| `TokenSpec.NoWordsIffBlank` | c-shell.c:96-97 | A line yields no tokens exactly when its text is empty or made only of delimiters. |
| `TokenSpec.TokensAfterCut` | c-shell.c:96-108 | After the loop has cut the line, the C string at the start of each token is exactly that token's text. |
| `TokenSpec.WordsOfJoin` | c-shell.c:96-109 | Splitting non-empty, delimiter-free words joined by single spaces gives the same words back. |
| `TokenSpec.SplitJoinSplit` | c-shell.c:96-109 | Splitting the tokens of a line again, joined by single spaces, gives the same tokens. |
| `TokenSpec.JoinedTokensCollapse` | c-shell.c:96-109 | The tokens joined by single spaces are the line's text with the leading and trailing delimiters dropped and every run of delimiters between words replaced by one space. |
| `TokenSpec.CollapseIsJoin` | c-shell.c:96-109 | For a text without NUL, the collapsing scan from the start gives the tokens joined by single spaces. Started after a word, it gives the same text with a space in front, or nothing if there are no tokens. |
| `TokenSpec.WordsOfText` | c-shell.c:96-109 | The tokens of a buffer are the tokens of its C string: nothing after the first NUL matters. |
| `TokenSpec.WordsOfCons` | c-shell.c:96-108 | A word followed by a delimiter and more text is the first token, and the tokens of the rest follow it. |
| `TokenSpec.WordsOfDelim` | c-shell.c:96-108 | A leading delimiter does not change the tokens. |
| `TokenSpec.SpansShift` | c-shell.c:108 | A `strtok(NULL, ...)` call depends only on the text from where it resumes: text before that position shifts the tokens found and changes nothing else. |
| `TokenSpec.NextTokenFrame` | c-shell.c:108 | A `strtok` call is unaffected by changes to the buffer before the position it resumes at. |
| `Tokenizer.StrtokFrom` | c-shell.c:96 | One `strtok` call keeps the line's length and returns a resume position inside the line, at or after where it started. |
| `Tokenizer.Strtok` | c-shell.c:108 | The in-place call leaves the array, the returned pointer and the saved position exactly as `StrtokFrom` describes: a pointer to the next token and a NUL written just after it, or NULL with the array unchanged. |
| `Tokenizer.StrtokCalls` | c-shell.c:96-109 | The state after each call of the loop keeps the line's length and a resume position inside it. |
| `Tokenizer.StrtokCallsResume` | c-shell.c:97-108 | While the calls find tokens, each resumes strictly further on. The line is still NUL-terminated there, so the next call is well defined. Call `k` returns a pointer to the start of token `k`. |
| `Tokenizer.ReturnedAreStarts` | c-shell.c:96-108 | The pointers returned by the first `k` calls are the starts of the first `k` tokens, in order. |
| `Tokenizer.StrtokCallsText` | c-shell.c:96-108 | After call `k`, the line is the original with a NUL written after each token found so far. |
| `Tokenizer.StrtokCallsEnd` | c-shell.c:96-109 | The first call that finds nothing comes right after the last token. By then the calls have returned a pointer to every token, in order, and the line is cut after each of them. |
| `Tokenizer.Pointers` | c-shell.c:98 | The pointer list has one pointer per token, to that token's start. |
| `Tokenizer.Append` | c-shell.c:98-107 | Storing a pointer keeps the earlier pointers and puts the new one at `position`. The array grows by one 64-slot chunk exactly when it becomes full, so the next store stays in bounds. |
| `Tokenizer.SplitLine` | c-shell.c:86-112 | There is one array entry per token of the original line: a pointer to its start, in order. The entry after them is NULL and lies inside the array. The array size is 64 plus one 64-slot chunk per time it filled. The line ends up with a NUL after every token. |

## Left out

- `main` and `lsh_loop` (c-shell.c:4-25): the prompt, the read-split-execute cycle and the `free` calls. `lsh_execute`, the builtins, redirection and process launching are not part of this model; their code is not in c-shell.c.
- `getchar` and `stdin`: the input is a sequence of the values `getchar` would return (bytes 0..255 or EOF). Past its end, `getchar` keeps returning EOF.
- Allocation failure (c-shell.c:35-38, 54-57, 91-94, 103-106): `malloc` and `realloc` are taken to succeed, so the `exit(EXIT_FAILURE)` paths and the `fprint` misspelling on two of them are not modelled.
- The commented-out `getline` variant (c-shell.c:62-82): it is dead code.
- `Memory.Realloc`: always moves the data to a new array, where C may extend the block in place. The model's callers do not depend on which happens. Cells past the old length hold Dafny's default value, where C leaves them indeterminate.
- Integer width: `bufsize` and `position` are C `int`s. The model uses unbounded integers and does not model overflow past `INT_MAX`, which would take a line of about 2 GB.
- `strtok`'s hidden static save pointer and its aliasing: the save position is an explicit index, and pointers into the line are indices. The model covers only this one caller's use of `strtok`, with LSH_TOK_DELIM.
- Storing an `int` into a `char` (c-shell.c:47): input values are bytes, each modelled as the `char` with that code; the signedness of C's `char` plays no part.

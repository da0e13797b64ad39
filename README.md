# Caption translation: cue realignment and file renaming

A model, in Dafny, of the two pieces of logic in `index.js` of a script that
downloads a course's subtitle archive, translates every caption file into
Spanish and writes the result back as SubRip (`.srt`) files:

- **`translateSrt`** takes the cues of one parsed subtitle file, splits them at
  `Math.ceil(N / 2)` into two contiguous halves, sends the `text` of each half
  as one batch to the translation service (`translateRequest`, always with the
  options `to: "es"`, `model: "nmt"`), concatenates the two answers and builds
  new cues in which cue i keeps every field and gets translation i as its text.
- **The renaming in `applyRequest`**: an archive member name is turned into the
  name of the WebVTT file to fetch and the name of the SubRip file to write by
  `file.replace(".txt", ".vtt")` and `file.replace(".txt", ".srt")`.
  JavaScript's `replace` with a string pattern rewrites only the first occurrence.

Everything is pure, so the model is functions and lemmas (modules `Translation`
and `FileNames`, plus `Wrappers` for `Option`).

Modelling choices:

- A cue is `Cue<R>(rest: R, text: string)`. The parser library is not part of
  this model, so `rest` stands, as an arbitrary type, for all the other fields
  of its cue objects; the model never inspects it.
- The translation service is a parameter, a total function
  `(seq<string>, TranslateOptions) -> seq<string>`.
- The code never checks that the service returns as many strings as it was
  sent. The answers are concatenated and indexed by cue position, so a first
  answer of the wrong length silently shifts every later translation onto the
  wrong cue, an over-long total is truncated, and only a short total leaves the
  last cues with `text` set to `undefined`.
  `TranslateSrt` therefore requires that each of the two answers has the length
  of its batch (`Aligned`); no error path is added.
- The model follows the code where a design for such a pipeline might differ:
  an empty file is not short-circuited (both requests are still made, each with
  an empty batch), and a length mismatch raises no alignment error.

## Model

| member | source | states |
|---|---|---|
| Translation.Middle | index.js:42 | the split point is `Math.ceil(n / 2)`: the least integer not below the real quotient n / 2 |
| Translation.Split | index.js:42-44 | the two slices concatenate back to the input, the first has ceil(N/2) cues and the second floor(N/2) |
| Translation.SplitFive | index.js:42-44 | five cues are split into the first three and the last two |
| Translation.Texts | index.js:59 | the batch a request sends has one string per cue, the text of cue i at position i |
| Translation.TextsAppend | index.js:59 | extracting the texts of two concatenated slices is concatenating their batches |
| Translation.BatchesInFileOrder | index.js:43-47 | the two batches, first half then second, are exactly the texts of the whole file in order: nothing dropped, duplicated or reordered |
| Translation.ReplaceTexts | index.js:51-54 | the rebuilt sequence has one cue per input cue; cue i keeps every other field of input cue i and gets text i |
| Translation.TextsOfReplaceTexts | index.js:51-54 | after rebuilding, the texts are exactly the translations and the other fields are exactly the input's |
| Translation.ReplaceTextsIdentity | index.js:51-54 | rebuilding with the cues' own texts gives the input back: only `text` is touched |
| Translation.DeterminedByParts | index.js:51-53 | two cue sequences with the same texts and the same other fields are equal, so the contract of TranslateSrt fixes its result |
| Translation.TranslateRequest | index.js:57-67 | no contract of its own: the provider applied to `Texts(cues)` with the fixed options `to: "es"`, `model: "nmt"`; its answers are specified through TranslateSrt and SplitMergeIsWholeBatch |
| Translation.TranslateSrt | index.js:41-55 | for a length-keeping service the output has N cues, the same non-text fields in the same order, and as texts the first answer followed by the second |
| Translation.TranslateSrtAt | index.js:49-54 | output cue i has input cue i's other fields and entry i of `[...trans1, ...trans2]` as its text |
| Translation.ElementwiseAligned | index.js:45-48 | a service that translates string by string meets the length requirement of both requests |
| Translation.MapTexts | index.js:58-59 | the answer of an element-wise service: one string per input string, f of string j at position j |
| Translation.MapTextsAppend | index.js:45-49 | for an element-wise service, answering two batches and concatenating equals answering their concatenation |
| Translation.SplitMergeIsWholeBatch | index.js:41-55 | for an element-wise service f, the split-and-merge result equals translating the whole file in one batch, and output text i is f of input text i |
| Translation.TranslateSrtEmpty | index.js:41-55 | an empty file gives two empty slices, two empty batches and an empty result |
| Translation.HelloWorld | index.js:41-67 | two cues "Hello" and "World" with a stub service come out as "Hola" and "Mundo" with their timings unchanged |
| FileNames.IndexOf | index.js:21 | the result is the first position where the pattern occurs, or None exactly when it occurs nowhere |
| FileNames.IndexOfContains | index.js:21 | IndexOf finds a position exactly when the pattern occurs |
| FileNames.ReplaceFirst | index.js:21 | the result is as long as the input minus the pattern plus the replacement when the pattern occurs, and as long as the input otherwise |
| FileNames.ReplaceFirstAbsent | index.js:21 | with no occurrence the name is unchanged |
| FileNames.ReplaceFirstAt | index.js:21 | with first occurrence at k, the result is the prefix before k, the replacement, and the rest after the occurrence |
| FileNames.ReplaceFirstKeepsLater | index.js:21 | only the first occurrence is replaced: with a replacement of the pattern's length, a later occurrence that does not overlap the first is still there, at the same position |
| FileNames.ReplaceFirstChangesIff | index.js:21 | a same-length different replacement changes the name exactly when the pattern occurs |
| FileNames.Renamed | index.js:21-26 | the fetched name (".vtt") and the written name (".srt") have the member name's length, since all three extensions are four characters |
| FileNames.VttName | index.js:21 | the fetched name has the member name's length, and equals the member name exactly when it has no ".txt" |
| FileNames.SrtName | index.js:26 | the written name has the member name's length, and equals the member name exactly when it has no ".txt" |
| FileNames.RenamesOfMember | index.js:19-27 | a member without ".txt" is fetched and written under its own name; one with ".txt" gets two different names, neither equal to the original |
| FileNames.SecondExtensionKept | index.js:21 | "a.txt.b.txt" is fetched as "a.vtt.b.txt" |

## Left out

- HTTP fetches with axios and the assembly of the course URL (index.js:11, 20-21, 94-98): network I/O.
- Loading the archive with JSZip and listing its member names (index.js:102): a foreign library.
- WebVTT to SubRip stream conversion and `srtParser2.fromSrt` / `toSrt` (index.js:9, 33-39, 69-75): wrappers over libraries that are not part of this model.
- The Google Translate client call (index.js:58-64): an external service, kept only as the provider function parameter; its failures (rejected promises) are not modelled.
- Filesystem work in `writeFile`, `writeStream` and `createFolder`, and the command-line parsing with minimist (index.js:5, 29-31, 77-90): I/O.
- The `Promise.all` fan-out of the two requests and the unbounded per-file `forEach` dispatch (index.js:15-17, 45-48): the two requests work on disjoint slices, so they are modelled as two independent applications of the provider.
- TranslateSrt: does not model a service answer of the wrong length, which is excluded by its precondition. In the code a first answer of the wrong length shifts every later translation onto the wrong cue, an over-long total is truncated, and a short total leaves the last cues with `text` set to `undefined`.

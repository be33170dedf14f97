# MASRIAN report generator: a Dafny model

MASRIAN is a browser front-end that helps a civil servant (ASN) write a performance
report. The user states a functional title (*jabatan*), a grade (*golongan*, one of twelve
codes from II/a to IV/d), an activity text and optionally a PDF. The panel composes one
instruction prompt from these and sends it, with the PDF inline, to a hosted Gemini model.
It then shows the markdown the model returns.

This project models the deterministic core of that flow:

- `Types` (types.ts): the twelve-grade `Golongan` type and its literal codes.
- `Text`: the string operations the code relies on. These are `String.prototype.split`
  with a one-character separator, its inverse `join`, template concatenation, and the
  "occurs at" and "ends with" facts used to state what a prompt contains.
- `Prompt` (App.tsx:76-91): the prompt template. It is cut into named fixed pieces,
  copied exactly with their line breaks and six-space indentation, and joined with the
  spliced values. The PDF clause is appended when a file is selected.
- `GeminiService` (services/geminiService.ts): the request the client builds (model id,
  parts list, system instruction) and the way a reply becomes report text. The SDK is a
  function parameter `sdk` from the request to what the call returned or threw.
- `App` (App.tsx): the class `GeneratorPanel` holds the component state (`loading`,
  `report`, `topic`, `jabatan`, `golongan`, `includeFullPackage`, `copied`, `file`,
  `fileBase64`). Its handlers are methods. The module also holds the grade options, the
  data-URL parsing, the attachment choice and the guards on generation.

Where the code and its prose description differ, the model follows the code:

- The attachment is chosen by JavaScript truthiness (`fileBase64 ? ... : undefined`,
  App.tsx:93). So an empty base64 string sends no document, just like an absent one.
  `PdfDataOf` states this.
- `split(',')[1]` is `undefined` when the data URL has no comma. The model gives `None`
  in that case, and a panel holding that value sends no attachment.
- The prompt's mode clause is identified by its slot, not by "the prompt contains the
  clause". The title and the activity are free text and may themselves contain either
  clause. So the model proves something narrower: the instruction paragraph, at an
  offset that does not depend on the mode, holds exactly one of the two clauses, and
  which one is decided by the mode flag.

## Model

| member | source | states |
|---|---|---|
| `Types.Code` | types.ts:2 | a grade's code is its rank in Roman numerals, a slash and its step letter a-d |
| `Types.FromCodeOfCode` | types.ts:2 | every grade's code reads back as that grade |
| `Types.CodeOfFromCode` | types.ts:2 | a string is accepted as a grade only if it is exactly that grade's code |
| `Types.CodeInjective` | types.ts:2 | distinct grades have distinct codes |
| `App.GolonganOptionsComplete` | App.tsx:24-28 | the selector lists 12 grades, every grade appears, and none appears twice |
| `Text.Split` | App.tsx:52 | `split` always yields at least one piece |
| `Text.SplitPiecesAreFree` | App.tsx:52 | no piece of a split contains the separator |
| `Text.JoinSplit` | App.tsx:52 | joining the pieces with the separator gives the original string back |
| `Text.SplitWithoutSeparator` | App.tsx:52 | a string without the separator splits into itself alone |
| `Text.SplitWithSeparator` | App.tsx:52 | a string with the separator splits into at least two pieces |
| `Text.SplitSecondPiece` | App.tsx:52 | the second piece is the text between the first separator and the next one (or the end) |
| `Text.ConcatHoldsRun` | App.tsx:76-87 | any run of adjacent template pieces occurs in the concatenation, right after the pieces before it |
| `App.Base64FromDataUrl` | App.tsx:52 | `split(',')[1]`: the text after the first comma up to the next one, absent without a comma; it never contains a comma |
| `App.Base64FromDataUrlPresent` | App.tsx:52 | a base64 part exists exactly when the data URL contains a comma |
| `App.Base64FromDataUrlSegment` | App.tsx:52 | the base64 part is exactly the segment between the first and second comma |
| `App.Base64FromDataUrlIsPiece` | App.tsx:52 | the base64 part never contains a comma, and the data URL is its pieces joined by commas |
| `App.Base64FromPdfDataUrl` | App.tsx:50-53 | for `data:application/pdf;base64,<payload>` the stored base64 is the payload |
| `Prompt.Activity` | App.tsx:80 | the activity is the topic when it is non-empty (whitespace counts), else the fixed phrase, and is never empty |
| `Prompt.ModeClause` | App.tsx:83-85 | the output-mode instruction is one of the two fixed sentences, the full-package one exactly when the full package is chosen |
| `Prompt.Pieces` | App.tsx:76-87 | the template cut into 15 pieces, with the title, the grade's code, the activity and the mode instruction in their own slots between fixed text |
| `Prompt.BasePrompt` | App.tsx:76-87 | the template is the pieces in order and opens with the identification header |
| `Prompt.PdfClause` | App.tsx:90 | the appended clause opens with the extraction lead and ends with the grade's code and a full stop |
| `Prompt.ComposedPrompt` | App.tsx:76-91 | the prompt opens with the template, and something is appended after it exactly when a file is selected |
| `Prompt.PromptNamesJabatan` | App.tsx:76-77 | `Jabatan Fungsional: ` followed by the title verbatim sits at the same fixed offset in every prompt |
| `Prompt.PromptNamesGolongan` | App.tsx:78 | the prompt contains `Golongan/Pangkat: ` followed by the grade's code verbatim |
| `Prompt.PromptActivityLine` | App.tsx:80 | the activity line carries the topic verbatim if it is non-empty, and `Menganalisis dokumen PDF terlampir` if it is empty |
| `Prompt.ModeClausesExclusive` | App.tsx:83-85 | the full-package and daily-only instructions can never both start at the same place |
| `Prompt.PromptModeSlot` | App.tsx:82-85 | at a mode-independent offset, the prompt holds the full-package instruction iff full package is chosen, and the daily-only one iff it is not |
| `Prompt.BasePromptEndsWithClosing` | App.tsx:87 | the template ends with its closing compliance sentence |
| `Prompt.ClosingIsNotPdfClause` | App.tsx:87-90 | text ending in the closing sentence cannot end in a PDF clause |
| `Prompt.PdfClauseNames` | App.tsx:90 | the PDF clause names the title and the grade's code after its fixed lead-in |
| `Prompt.PromptPdfClause` | App.tsx:89-91 | the prompt ends with the PDF clause iff a file is selected; without one it equals the template exactly |
| `App.PdfDataOf` | App.tsx:93 | a document is attached iff the base64 string is present and non-empty; it carries that string unchanged with MIME type `application/pdf` |
| `App.AttachmentImpliesPdfClause` | App.tsx:89-93 | when base64 is held only together with its file, a request with a document also carries the PDF clause |
| `App.ClauseWithoutAttachment` | App.tsx:52-93 | a selected PDF whose data URL has no comma gets a request with the prompt alone, and that prompt still ends with the PDF clause |
| `App.NothingToGenerate` | App.tsx:66 | the guard `!topic && !file`: an empty topic and no file |
| `App.GenerateDisabled` | App.tsx:232 | an enabled button means nothing is pending and there is a topic or a file; when idle, the button is disabled iff the generate guard would refuse |
| `GeminiService.Carries` | services/geminiService.ts:51-66 | a request carries the fixed model id and system instruction, the prompt as its first part and, only when a document is given, that document as its second part |
| `GeminiService.CarriesDetermines` | services/geminiService.ts:51-66 | the prompt and the document fix the whole request, including the model id and system instruction, which are the same constants for every call |
| `GeminiService.ReportText` | services/geminiService.ts:71 | the result is never empty; it is the reply text when non-empty, otherwise exactly `Gagal menghasilkan laporan.` |
| `GeminiService.GenerateReport` | services/geminiService.ts:49-76 | the request sent is one text part with the prompt, then an inline-data part with the document unchanged iff one is given; a thrown error is passed on unchanged, never turned into the fallback |
| `App.GeneratorPanel.constructor` | App.tsx:31-39 | the panel starts idle, with an empty report and topic, the default title, grade II/a, the full package, and no file |
| `App.GeneratorPanel.SetTopic` | App.tsx:224 | the topic becomes the typed text; nothing else changes |
| `App.GeneratorPanel.SetJabatan` | App.tsx:174 | the title becomes the typed text; nothing else changes |
| `App.GeneratorPanel.SetGolongan` | App.tsx:158 | the grade becomes the selected one; nothing else changes |
| `App.GeneratorPanel.SetIncludeFullPackage` | App.tsx:186-192 | the mode flag becomes the chosen one; nothing else changes |
| `App.GeneratorPanel.HandleFileChange` | App.tsx:42-57 | no selection or a non-PDF changes nothing; a PDF is stored with the base64 part of its data URL; a stored file is always a PDF |
| `App.GeneratorPanel.RemoveFile` | App.tsx:59-63 | the file and its base64 are both cleared |
| `App.GeneratorPanel.Generate` | App.tsx:65-102 | with no topic and no file no request is sent and nothing changes; otherwise exactly one request carries the composed prompt and the attachment from `fileBase64`, `copied` is cleared, the report becomes the result on success and is kept on failure, and loading ends |
| `App.GeneratorPanel.CopyToClipboard` | App.tsx:104-108 | the report is handed to the clipboard and `copied` is set |

## Left out

- JSX layout, styling, icons and the `alert` messages (App.tsx:115-337, 46, 67, 97): UI
  only. The model keeps where each alert fires as a comment and does not change state there.
- The `console.error` logging (App.tsx:98, services/geminiService.ts:73): output to the
  browser console only; it changes no state and the error is passed on as it was.
- Markdown rendering with `marked` (App.tsx:110-113): an external library. The model does
  not state that nothing is rendered for an empty report.
- `App.GeneratorPanel.CopyToClipboard`: does not model the browser clipboard or the
  timer that resets `copied` after 2 seconds. It returns the text handed to the
  clipboard and sets `copied`.
- `App.GeneratorPanel.HandleFileChange`: the `FileReader` completes asynchronously in the
  source, but the model applies its data URL in the same step as the selection. A file can
  only be picked while none is selected (App.tsx:202-210), after `removeFile` has cleared
  the base64, so a generate between selection and load sends the PDF clause without any
  attachment; the model does not capture that window. It also does not capture a late
  load after `removeFile`, which would leave base64 without a file, and would then send
  that stale document with a topic-only prompt. Resetting the DOM input value on removal
  is left out too.
- `App.GeneratorPanel.Generate`: runs as one atomic step. The `loading` flag is set and
  cleared inside it. The rule of one request at a time rests on the disabled button,
  which is modelled by `GenerateDisabled` and the `Valid` invariant `!loading`, not on
  interleaving.
- The Gemini SDK client, API-key lookup and network call (services/geminiService.ts:45-47,
  62-69): foreign code and I/O, modelled by the `sdk` parameter.
- The temperature `0.7` (services/geminiService.ts:67): a floating-point setting that
  nothing here reads.
- The content of the system instruction (services/geminiService.ts:4-40): it is the same
  constant in every request, so a request names it by the single token
  `MasrianInstruction`. Its text, whose rules (grade-to-skill levels, the 8-hour workday)
  are guidance for the model rather than behaviour of this code, is not part of this model.
- `User`, `Activity`, `ReportData` and `ReportType` (types.ts:4-30) and the local-storage
  login and registration: not used by the generator code shown.
- The mode clause is not claimed absent from the whole prompt, because the user's free
  text may contain it (see above); the claim is made for the instruction slot.

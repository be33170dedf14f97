/** The generation client (services/geminiService.ts): it wraps the prompt and an optional
    inline PDF into one request for the hosted model and turns the reply into report text.
    The model SDK itself is a parameter, `sdk`, mapping the request it is sent to what it
    returned or threw. */
module GeminiService {
  import opened Wrappers

  /** The model every request names. */
  const ModelId: string := "gemini-3-flash-preview"

  /** The reply used when the model returns no text. */
  const Fallback: string := "Gagal menghasilkan laporan."

  /** The fixed system-level instruction sent with every request. There is only one,
      so a request names it by this token. Its text is guidance for the model and is not
      part of this model. */
  datatype SystemInstruction = MasrianInstruction

  /** An inline document: base64 `data` and its MIME type. */
  datatype InlineData = InlineData(data: string, mimeType: string)

  /** One entry of the request's `parts` list. */
  datatype Part = TextPart(text: string) | InlineDataPart(inlineData: InlineData)

  /** What is handed to the SDK: the model id, the parts and the system instruction. */
  datatype Request = Request(model: string, parts: seq<Part>, systemInstruction: SystemInstruction)

  /** An error raised by the SDK or the network; the client never looks inside it. */
  datatype ServiceError = ServiceError(description: string)

  /** What one SDK call gives back: a response whose `text` may be missing, or a thrown error. */
  datatype SdkOutcome = Responded(text: Option<string>) | Threw(error: ServiceError)

  /** `req` is the request the client forms for `prompt` and `pdfData`: the fixed model
      and system instruction, one text part holding the prompt, then the document, if any. */
  predicate Carries(req: Request, prompt: string, pdfData: Option<InlineData>)
  {
    && req.model == ModelId
    && req.systemInstruction == MasrianInstruction
    && |req.parts| == (if pdfData.Some? then 2 else 1)
    && req.parts[0] == TextPart(prompt)
    && (pdfData.Some? ==> req.parts[1] == InlineDataPart(pdfData.value))
  }

  /** The prompt and the document determine the request completely: no other input,
      earlier call or hidden state reaches it. */
  lemma CarriesDetermines(r1: Request, r2: Request, prompt: string, pdfData: Option<InlineData>)
    requires Carries(r1, prompt, pdfData) && Carries(r2, prompt, pdfData)
    ensures r1 == r2
  {
    assert r1.parts == r2.parts by {
      forall i | 0 <= i < |r1.parts|
        ensures r1.parts[i] == r2.parts[i]
      {
      }
    }
  }

  /** `response.text || fallback`: the reply text when there is some, else the fallback. */
  function ReportText(text: Option<string>): (r: string)
    ensures r != ""
    ensures text.Some? && text.value != "" ==> r == text.value
    ensures text.None? || text.value == "" ==> r == Fallback
  {
    if text.Some? && text.value != "" then text.value else Fallback
  }

  /** `generateReport`: builds the parts list, calls the model once, and returns the
      report text, or passes on the error the call threw, unchanged. `sent` is the
      request the SDK received. */
  method GenerateReport(prompt: string, pdfData: Option<InlineData>, sdk: Request -> SdkOutcome)
    returns (sent: Request, result: Result<string, ServiceError>)
    ensures Carries(sent, prompt, pdfData)
    ensures sdk(sent).Responded? ==> result == Success(ReportText(sdk(sent).text))
    ensures sdk(sent).Threw? ==> result == Failure(sdk(sent).error)
  {
    var contents := [TextPart(prompt)];
    if pdfData.Some? {
      contents := contents + [InlineDataPart(InlineData(pdfData.value.data, pdfData.value.mimeType))];
    }
    sent := Request(ModelId, contents, MasrianInstruction);
    match sdk(sent)
    case Responded(text) =>
      result := Success(ReportText(text));
    case Threw(error) =>
      result := Failure(error);
  }
}

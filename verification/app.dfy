/** The generator panel (App.tsx): its state, the handlers that change it, the grade
    options and the conditions that guard generation. Each handler runs as one step;
    the model call is the `sdk` parameter handed to Generate. */
module App {
  import opened Wrappers
  import opened Types
  import opened Text
  import Prompt
  import GeminiService

  /** The grades the selector offers, in display order. */
  const GolonganOptions: seq<Golongan> :=
    [II_a, II_b, II_c, II_d, III_a, III_b, III_c, III_d, IV_a, IV_b, IV_c, IV_d]

  /** The only MIME type a selected file may have. */
  const PdfMimeType: string := "application/pdf"

  /** The title the panel starts with. */
  const DefaultJabatan: string := "Pengendali Ekosistem Hutan"

  /** A file picked in the browser: its name and its reported MIME type. */
  datatype SelectedFile = SelectedFile(name: string, mimeType: string)

  /** The selector offers every grade exactly once. */
  lemma GolonganOptionsComplete(g: Golongan)
    ensures |GolonganOptions| == 12
    ensures g in GolonganOptions
    ensures forall i, j :: 0 <= i < j < |GolonganOptions| ==> GolonganOptions[i] != GolonganOptions[j]
  {
  }

  /** `dataUrl.split(',')[1]`: the part of a data URL between its first comma and the
      next one (or the end); absent when there is no comma at all. */
  function Base64FromDataUrl(dataUrl: string): (b: Option<string>)
    ensures b.Some? ==> ',' !in b.value
  {
    SplitPiecesAreFree(dataUrl, ',');
    var parts := Split(dataUrl, ',');
    if |parts| >= 2 then Some(parts[1]) else None
  }

  /** There is a base64 part exactly when the data URL holds a comma. */
  lemma Base64FromDataUrlPresent(dataUrl: string)
    ensures Base64FromDataUrl(dataUrl).Some? <==> ',' in dataUrl
  {
    if ',' in dataUrl {
      SplitWithSeparator(dataUrl, ',');
    } else {
      SplitWithoutSeparator(dataUrl, ',');
    }
  }

  /** For a data URL `pre,piece` or `pre,piece,...` with no comma in `pre` or `piece`,
      the base64 part is exactly `piece`. */
  lemma Base64FromDataUrlSegment(pre: string, piece: string, post: string)
    requires ',' !in pre && ',' !in piece
    requires post == [] || post[0] == ','
    ensures Base64FromDataUrl(pre + [','] + piece + post) == Some(piece)
  {
    SplitSecondPiece(pre, piece, post, ',');
  }

  /** The base64 part never holds a comma, and the data URL is rebuilt from its pieces. */
  lemma Base64FromDataUrlIsPiece(dataUrl: string)
    requires Base64FromDataUrl(dataUrl).Some?
    ensures ',' !in Base64FromDataUrl(dataUrl).value
    ensures Join(Split(dataUrl, ','), ',') == dataUrl
  {
    SplitPiecesAreFree(dataUrl, ',');
    JoinSplit(dataUrl, ',');
  }

  /** A browser data URL for a PDF yields the text after "base64,". */
  lemma Base64FromPdfDataUrl(payload: string)
    requires ',' !in payload
    ensures Base64FromDataUrl("data:application/pdf;base64," + payload) == Some(payload)
  {
    assert "data:application/pdf;base64," + payload == "data:application/pdf;base64" + [','] + payload + [];
    Base64FromDataUrlSegment("data:application/pdf;base64", payload, []);
  }

  /** `fileBase64 ? { data, mimeType: 'application/pdf' } : undefined`: a document is
      attached when there is a base64 string that is not empty. */
  function PdfDataOf(fileBase64: Option<string>): (r: Option<GeminiService.InlineData>)
    ensures r.Some? <==> fileBase64.Some? && fileBase64.value != ""
    ensures r.Some? ==> r.value.data == fileBase64.value && r.value.mimeType == PdfMimeType
  {
    if fileBase64.Some? && fileBase64.value != "" then Some(GeminiService.InlineData(fileBase64.value, PdfMimeType))
    else None
  }

  /** While a base64 string is held only with its file, a request that carries a
      document also carries the PDF clause. The converse fails, as
      `ClauseWithoutAttachment` shows. */
  lemma AttachmentImpliesPdfClause(jabatan: string, golongan: Golongan, topic: string, includeFullPackage: bool,
                                   file: Option<SelectedFile>, fileBase64: Option<string>)
    requires fileBase64.Some? ==> file.Some?
    ensures PdfDataOf(fileBase64).Some? ==>
              EndsWith(Prompt.ComposedPrompt(jabatan, golongan, topic, includeFullPackage, file.Some?),
                       Prompt.PdfClause(jabatan, golongan))
  {
    Prompt.PromptPdfClause(jabatan, golongan, topic, includeFullPackage, file.Some?);
  }

  /** A PDF whose data URL holds no comma (a bare "data:", say) is selected, yet its
      base64 part is absent: the request built from that state is the prompt alone, and
      the prompt still ends with the clause that asks to extract from the PDF. */
  lemma ClauseWithoutAttachment(jabatan: string, golongan: Golongan, topic: string, includeFullPackage: bool,
                                dataUrl: string, req: GeminiService.Request)
    requires ',' !in dataUrl
    requires GeminiService.Carries(req, Prompt.ComposedPrompt(jabatan, golongan, topic, includeFullPackage, true),
                                   PdfDataOf(Base64FromDataUrl(dataUrl)))
    ensures |req.parts| == 1 && req.parts[0].TextPart?
    ensures EndsWith(req.parts[0].text, Prompt.PdfClause(jabatan, golongan))
  {
    Base64FromDataUrlPresent(dataUrl);
    Prompt.PromptPdfClause(jabatan, golongan, topic, includeFullPackage, true);
  }

  /** `!topic && !file`: no activity text and no file, so there is nothing to generate from. */
  predicate NothingToGenerate(topic: string, file: Option<SelectedFile>)
  {
    topic == "" && file.None?
  }

  /** The generate button is disabled while a request is pending or when there is
      nothing to generate from. */
  function GenerateDisabled(loading: bool, topic: string, file: Option<SelectedFile>): (disabled: bool)
    ensures !disabled ==> !loading && (topic != "" || file.Some?)
    ensures !loading ==> (disabled <==> NothingToGenerate(topic, file))
  {
    loading || NothingToGenerate(topic, file)
  }

  class GeneratorPanel {
    var loading: bool
    var report: string
    var topic: string
    var jabatan: string
    var golongan: Golongan
    var includeFullPackage: bool
    var copied: bool
    var file: Option<SelectedFile>
    var fileBase64: Option<string>

    /** Between handlers: no request is pending, a selected file is a PDF, and a base64
        string is held only together with the file it was read from. */
    predicate Valid()
      reads this
    {
      && !loading
      && (file.Some? ==> file.value.mimeType == PdfMimeType)
      && (fileBase64.Some? ==> file.Some?)
    }

    /** The initial state of App.tsx:31-39. */
    constructor ()
      ensures Valid()
      ensures !loading && report == "" && topic == "" && !copied
      ensures jabatan == DefaultJabatan && golongan == II_a && includeFullPackage
      ensures file == None && fileBase64 == None
    {
      loading := false;
      report := "";
      topic := "";
      jabatan := DefaultJabatan;
      golongan := II_a;
      includeFullPackage := true;
      copied := false;
      file := None;
      fileBase64 := None;
    }

    /** The activity text area's change handler. */
    method SetTopic(value: string)
      requires Valid()
      modifies this`topic
      ensures Valid() && topic == value
    {
      topic := value;
    }

    /** The title input's change handler. */
    method SetJabatan(value: string)
      requires Valid()
      modifies this`jabatan
      ensures Valid() && jabatan == value
    {
      jabatan := value;
    }

    /** The grade selector's change handler: the selector offers only the twelve codes. */
    method SetGolongan(value: Golongan)
      requires Valid()
      modifies this`golongan
      ensures Valid() && golongan == value
    {
      golongan := value;
    }

    /** The two output-mode buttons. */
    method SetIncludeFullPackage(value: bool)
      requires Valid()
      modifies this`includeFullPackage
      ensures Valid() && includeFullPackage == value
    {
      includeFullPackage := value;
    }

    /** `handleFileChange`: nothing picked or a non-PDF changes nothing; a PDF is stored
        with the base64 part of the data URL the reader produced for it. */
    method HandleFileChange(selected: Option<SelectedFile>, dataUrl: string)
      requires Valid()
      modifies this`file, this`fileBase64
      ensures Valid()
      ensures selected.None? || selected.value.mimeType != PdfMimeType ==>
                file == old(file) && fileBase64 == old(fileBase64)
      ensures selected.Some? && selected.value.mimeType == PdfMimeType ==>
                file == selected && fileBase64 == Base64FromDataUrl(dataUrl)
    {
      if selected.Some? {
        if selected.value.mimeType != PdfMimeType {
          // "Hanya file PDF yang diperbolehkan." is shown and the selection dropped.
          return;
        }
        file := selected;
        fileBase64 := Base64FromDataUrl(dataUrl);
      }
    }

    /** `removeFile`: forget the file and its base64 content. */
    method RemoveFile()
      requires Valid()
      modifies this`file, this`fileBase64
      ensures Valid() && file == None && fileBase64 == None
    {
      file := None;
      fileBase64 := None;
    }

    /** `handleGenerate`. With no topic and no file nothing happens and no request is
        sent. Otherwise the composed prompt and the attachment, if any, go to the model
        once (`sent`); the report becomes the result on success and stays as it was on
        failure; the copied mark is cleared and loading ends either way. */
    method Generate(sdk: GeminiService.Request -> GeminiService.SdkOutcome)
      returns (sent: Option<GeminiService.Request>)
      requires Valid()
      modifies this`loading, this`copied, this`report
      ensures Valid()
      ensures sent.None? <==> NothingToGenerate(topic, file)
      ensures sent.None? ==> copied == old(copied) && report == old(report)
      ensures sent.Some? ==>
                && GeminiService.Carries(sent.value,
                     Prompt.ComposedPrompt(jabatan, golongan, topic, includeFullPackage, file.Some?),
                     PdfDataOf(fileBase64))
                && !copied
                && report == (match sdk(sent.value)
                              case Responded(text) => GeminiService.ReportText(text)
                              case Threw(_) => old(report))
    {
      if NothingToGenerate(topic, file) {
        // "Masukkan topik atau unggah dokumen disposisi/surat." is shown.
        return None;
      }
      loading := true;
      copied := false;
      var prompt := Prompt.BasePrompt(jabatan, golongan, topic, includeFullPackage);
      if file.Some? {
        prompt := prompt + Prompt.PdfClause(jabatan, golongan);
      }
      var pdfData := PdfDataOf(fileBase64);
      var request, result := GeminiService.GenerateReport(prompt, pdfData, sdk);
      if result.Success? {
        report := result.value;
      }
      // On failure, "Terjadi kesalahan saat menghubungi server." is shown.
      loading := false;
      sent := Some(request);
    }

    /** `copyToClipboard`: hands the report to the clipboard and marks it copied. */
    method CopyToClipboard() returns (clipboardText: string)
      requires Valid()
      modifies this`copied
      ensures Valid() && copied && clipboardText == report
    {
      clipboardText := report;
      copied := true;
    }
  }
}

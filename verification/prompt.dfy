/** The instruction string the generator composes (App.tsx:76-91). The template's fixed
    text, with its line breaks and six-space indentation, is cut into named pieces at
    each place a value is spliced in; the prompt is those pieces in order. */
module Prompt {
  import opened Types
  import opened Text

  const Header: string := "TAHAP AWAL - IDENTIFIKASI PENGGUNA:\n      - "
  const JabatanLabel: string := "Jabatan Fungsional: "
  const ItemLead: string := "\n      - "
  const GolonganLabel: string := "Golongan/Pangkat: "
  /** The indented blank line that separates the template's paragraphs. */
  const BlankLine: string := "\n      \n      "
  const ActivityLabel: string := "MASUKAN KEGIATAN: "
  /** Stands in for an empty activity (`topic || '...'`). */
  const ActivityFallback: string := "Menganalisis dokumen PDF terlampir"
  const InstructionLabel: string := "INSTRUKSI KHUSUS:\n      "
  /** Full package: daily table, weekly recap and monthly recap. */
  const FullPackageClause: string := "Susun Paket Lengkap: " + "Laporan Harian (Tabel), Rekap Mingguan, dan Rekap Bulanan."
  /** Daily table only. */
  const DailyOnlyClause: string := "Susun Laporan Harian saja dalam bentuk tabel."
  const Closing: string := "Patuhi seluruh Logika Kepatutan Tugas, Level Kecakapan, dan Beban Kerja (8 Jam) sesuai profil di atas."
  const PdfLead: string := "\n\nEkstrak detail dari PDF untuk memperkaya uraian tugas teknis yang pantas untuk "

  /** The activity spliced into the prompt: the topic, unless it is the empty string. */
  function Activity(topic: string): (a: string)
    ensures a != ""
    ensures topic != "" ==> a == topic
    ensures topic == "" ==> a == ActivityFallback
  {
    if topic == "" then ActivityFallback else topic
  }

  /** The output-mode instruction. */
  function ModeClause(includeFullPackage: bool): (clause: string)
    ensures clause == FullPackageClause || clause == DailyOnlyClause
    ensures clause == FullPackageClause <==> includeFullPackage
  {
    if includeFullPackage then FullPackageClause else DailyOnlyClause
  }

  /** The template of App.tsx:76-87 as its fixed pieces and spliced values. */
  function Pieces(jabatan: string, golongan: Golongan, topic: string, includeFullPackage: bool): (ps: seq<string>)
    ensures |ps| == 15
    ensures ps[2] == jabatan && ps[5] == Code(golongan)
    ensures ps[8] == Activity(topic) && ps[12] == ModeClause(includeFullPackage)
  {
    [ Header, JabatanLabel, jabatan,
      ItemLead, GolonganLabel, Code(golongan),
      BlankLine, ActivityLabel, Activity(topic), ".",
      BlankLine, InstructionLabel, ModeClause(includeFullPackage),
      BlankLine, Closing ]
  }

  /** The template, before anything is appended to it. */
  function BasePrompt(jabatan: string, golongan: Golongan, topic: string, includeFullPackage: bool): (p: string)
    ensures Header <= p
  {
    Concat(Pieces(jabatan, golongan, topic, includeFullPackage))
  }

  /** The clause appended when a document is attached: extract from the PDF what suits
      this title and grade. */
  function PdfClause(jabatan: string, golongan: Golongan): (clause: string)
    ensures PdfLead <= clause
    ensures EndsWith(clause, Code(golongan) + ".")
  {
    PdfLead + jabatan + " " + Code(golongan) + "."
  }

  /** The prompt the generator sends: the template, followed by the PDF clause exactly
      when a file is selected. */
  function ComposedPrompt(jabatan: string, golongan: Golongan, topic: string,
                          includeFullPackage: bool, hasFile: bool): (p: string)
    ensures BasePrompt(jabatan, golongan, topic, includeFullPackage) <= p
    ensures hasFile <==> |p| > |BasePrompt(jabatan, golongan, topic, includeFullPackage)|
  {
    BasePrompt(jabatan, golongan, topic, includeFullPackage)
    + (if hasFile then PdfClause(jabatan, golongan) else "")
  }

  /** Where the instruction paragraph starts. The pieces before it do not depend on the
      output mode, so neither does this offset. */
  function InstructionAt(jabatan: string, golongan: Golongan, topic: string): nat
  {
    |Concat(Pieces(jabatan, golongan, topic, true)[..11])|
  }

  /** The composed prompt begins with the template, whatever is appended. */
  lemma ComposedPromptKeeps(jabatan: string, golongan: Golongan, topic: string,
                            includeFullPackage: bool, hasFile: bool, pat: string, at: nat)
    requires OccursAt(BasePrompt(jabatan, golongan, topic, includeFullPackage), pat, at)
    ensures OccursAt(ComposedPrompt(jabatan, golongan, topic, includeFullPackage, hasFile), pat, at)
  {
    OccursInPrefix(BasePrompt(jabatan, golongan, topic, includeFullPackage),
                   if hasFile then PdfClause(jabatan, golongan) else "", pat, at);
  }

  /** The title follows its label verbatim, at the same offset for every input. */
  lemma PromptNamesJabatan(jabatan: string, golongan: Golongan, topic: string,
                           includeFullPackage: bool, hasFile: bool)
    ensures OccursAt(ComposedPrompt(jabatan, golongan, topic, includeFullPackage, hasFile),
                     JabatanLabel + jabatan, |Header|)
  {
    var ps := Pieces(jabatan, golongan, topic, includeFullPackage);
    ConcatHoldsRun(ps, 1, 3);
    assert |ps| == 15 && ps[0] == Header && ps[1] == JabatanLabel && ps[2] == jabatan;
    assert ps[1..3] == [JabatanLabel, jabatan] && ps[..1] == [Header];
    ConcatSmall(Header, JabatanLabel, jabatan);
    ConcatSmall(JabatanLabel, jabatan, "");
    ComposedPromptKeeps(jabatan, golongan, topic, includeFullPackage, hasFile, JabatanLabel + jabatan, |Header|);
  }

  /** The grade's code follows its label verbatim. */
  lemma PromptNamesGolongan(jabatan: string, golongan: Golongan, topic: string,
                            includeFullPackage: bool, hasFile: bool)
    ensures exists at :: OccursAt(ComposedPrompt(jabatan, golongan, topic, includeFullPackage, hasFile),
                                  GolonganLabel + Code(golongan), at)
  {
    var ps := Pieces(jabatan, golongan, topic, includeFullPackage);
    ConcatHoldsRun(ps, 4, 6);
    assert |ps| == 15 && ps[4] == GolonganLabel && ps[5] == Code(golongan);
    assert ps[4..6] == [GolonganLabel, Code(golongan)];
    ConcatSmall(GolonganLabel, Code(golongan), "");
    var at := |Concat(ps[..4])|;
    ComposedPromptKeeps(jabatan, golongan, topic, includeFullPackage, hasFile, GolonganLabel + Code(golongan), at);
  }

  /** The activity line carries the topic verbatim when it is not the empty string (a
      topic of blanks included), and the fixed phrase about the attached PDF when it is. */
  lemma PromptActivityLine(jabatan: string, golongan: Golongan, topic: string,
                           includeFullPackage: bool, hasFile: bool)
    ensures topic != "" ==>
      exists at :: OccursAt(ComposedPrompt(jabatan, golongan, topic, includeFullPackage, hasFile),
                            ActivityLabel + topic + ".", at)
    ensures topic == "" ==>
      exists at :: OccursAt(ComposedPrompt(jabatan, golongan, topic, includeFullPackage, hasFile),
                            ActivityLabel + ActivityFallback + ".", at)
  {
    var ps := Pieces(jabatan, golongan, topic, includeFullPackage);
    ConcatHoldsRun(ps, 7, 10);
    assert |ps| == 15 && ps[7] == ActivityLabel && ps[8] == Activity(topic) && ps[9] == ".";
    assert ps[7..10] == [ActivityLabel, Activity(topic), "."];
    ConcatSmall(ActivityLabel, Activity(topic), ".");
    var at := |Concat(ps[..7])|;
    ComposedPromptKeeps(jabatan, golongan, topic, includeFullPackage, hasFile, ActivityLabel + Activity(topic) + ".", at);
  }

  /** At one offset the two mode instructions cannot both begin: they part at their
      seventh character ("Susun Paket ..." against "Susun Laporan ..."). */
  lemma ModeClausesExclusive(p: string, at: nat)
    ensures !(OccursAt(p, InstructionLabel + FullPackageClause, at)
              && OccursAt(p, InstructionLabel + DailyOnlyClause, at))
  {
    if OccursAt(p, InstructionLabel + FullPackageClause, at) {
      var k := |InstructionLabel| + 6;
      assert FullPackageClause[6] == 'P';
      assert (InstructionLabel + FullPackageClause)[k] == FullPackageClause[6];
      assert p[at + k] == 'P';
      assert DailyOnlyClause[6] == 'L';
      assert (InstructionLabel + DailyOnlyClause)[k] == DailyOnlyClause[6];
    }
  }

  /** The instruction paragraph, at an offset that does not depend on the mode, holds the
      full-package instruction exactly when the full package is asked for and the
      daily-only instruction exactly when it is not; never both. */
  lemma PromptModeSlot(jabatan: string, golongan: Golongan, topic: string,
                       includeFullPackage: bool, hasFile: bool)
    ensures OccursAt(ComposedPrompt(jabatan, golongan, topic, includeFullPackage, hasFile),
                     InstructionLabel + FullPackageClause, InstructionAt(jabatan, golongan, topic))
            <==> includeFullPackage
    ensures OccursAt(ComposedPrompt(jabatan, golongan, topic, includeFullPackage, hasFile),
                     InstructionLabel + DailyOnlyClause, InstructionAt(jabatan, golongan, topic))
            <==> !includeFullPackage
  {
    var ps := Pieces(jabatan, golongan, topic, includeFullPackage);
    var at := InstructionAt(jabatan, golongan, topic);
    ConcatHoldsRun(ps, 11, 13);
    assert |ps| == 15 && ps[11] == InstructionLabel && ps[12] == ModeClause(includeFullPackage);
    assert ps[11..13] == [InstructionLabel, ModeClause(includeFullPackage)];
    assert ps[..11] == Pieces(jabatan, golongan, topic, true)[..11];
    ConcatSmall(InstructionLabel, ModeClause(includeFullPackage), "");
    ComposedPromptKeeps(jabatan, golongan, topic, includeFullPackage, hasFile,
                        InstructionLabel + ModeClause(includeFullPackage), at);
    var p := ComposedPrompt(jabatan, golongan, topic, includeFullPackage, hasFile);
    ModeClausesExclusive(p, at);
  }

  /** The template ends with its closing sentence. */
  lemma BasePromptEndsWithClosing(jabatan: string, golongan: Golongan, topic: string, includeFullPackage: bool)
    ensures EndsWith(BasePrompt(jabatan, golongan, topic, includeFullPackage), Closing)
  {
    var ps := Pieces(jabatan, golongan, topic, includeFullPackage);
    assert |ps| == 15 && ps[14] == Closing;
    assert ps == ps[..14] + [Closing];
    ConcatAppend(ps[..14], [Closing]);
    ConcatSmall(Closing, "", "");
  }

  /** Text that ends with the closing sentence does not end with a PDF clause: second to
      last, one has the 's' of "atas", the other the step letter of a grade. */
  lemma ClosingIsNotPdfClause(p: string, jabatan: string, golongan: Golongan)
    requires EndsWith(p, Closing)
    ensures !EndsWith(p, PdfClause(jabatan, golongan))
  {
    var clause := PdfClause(jabatan, golongan);
    var code := Code(golongan);
    assert Closing[|Closing| - 2] == 's';
    assert p[|p| - 2] == 's';
    assert code[|code| - 1] == Step(golongan);
    assert clause[|clause| - 2] == Step(golongan);
  }

  /** The appended clause names the title and the grade, after its fixed lead-in. */
  lemma PdfClauseNames(jabatan: string, golongan: Golongan)
    ensures OccursAt(PdfClause(jabatan, golongan), jabatan + " " + Code(golongan) + ".", |PdfLead|)
  {
    OccursBetween(PdfLead, jabatan + " " + Code(golongan) + ".", "");
  }

  /** The PDF clause is appended exactly when a file is selected; without a file the
      prompt is the template and nothing more. */
  lemma PromptPdfClause(jabatan: string, golongan: Golongan, topic: string,
                        includeFullPackage: bool, hasFile: bool)
    ensures hasFile <==> EndsWith(ComposedPrompt(jabatan, golongan, topic, includeFullPackage, hasFile),
                                  PdfClause(jabatan, golongan))
    ensures !hasFile ==> ComposedPrompt(jabatan, golongan, topic, includeFullPackage, hasFile)
                         == BasePrompt(jabatan, golongan, topic, includeFullPackage)
  {
    var base := BasePrompt(jabatan, golongan, topic, includeFullPackage);
    var clause := PdfClause(jabatan, golongan);
    var p := ComposedPrompt(jabatan, golongan, topic, includeFullPackage, hasFile);
    if hasFile {
      assert p == base + clause;
      assert p[|p| - |clause|..] == clause;
    } else {
      assert p == base + [] == base;
      BasePromptEndsWithClosing(jabatan, golongan, topic, includeFullPackage);
      ClosingIsNotPdfClause(p, jabatan, golongan);
    }
  }
}

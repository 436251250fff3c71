/*
  analyzeResume (controllers/resumeAnalysisController.js): the upload checks, the
  assembly of the resume text from the parsed PDF, the cleanup and parsing of the
  language model's reply, the shape check, and what is stored and answered.

  The PDF parser, decodeURIComponent, the language model, JSON.parse and the document
  store are the functions of `Services`; each either answers or fails with a message.
*/
module ResumeAnalysis {
  import opened Outcomes
  import opened JsStrings
  import opened JsonValues

  // ------------------------------------------------------------------ the parsed PDF

  /** One entry of `page.Texts`; `runs` are the `T` fields of its `R` list. */
  datatype PdfText = PdfText(runs: seq<string>)
  datatype PdfPage = PdfPage(texts: Option<seq<PdfText>>)
  datatype PdfData = PdfData(pages: Option<seq<PdfPage>>)

  /** The texts of the pages in order; a page without `Texts` contributes none. */
  function Flatten(pages: seq<PdfPage>): seq<PdfText>
    decreases |pages|
  {
    if pages == [] then []
    else (if pages[0].texts.Some? then pages[0].texts.value else []) + Flatten(pages[1..])
  }

  /** `decodeURIComponent(text.R[0].T) + ' '`; an empty `R` or a malformed escape throws. */
  function Piece(decode: string -> Option<string>, t: PdfText): Result<string, string> {
    if |t.runs| == 0 then Err("Cannot read properties of undefined (reading 'T')")
    else match decode(t.runs[0])
      case None => Err("URI malformed")
      case Some(d) => Ok(d + " ")
  }

  /** `resumeText += piece` over the texts, from the text built so far. */
  function Assemble(decode: string -> Option<string>, acc: string, ts: seq<PdfText>): Result<string, string>
    decreases |ts|
  {
    if ts == [] then Ok(acc)
    else match Piece(decode, ts[0])
      case Err(e) => Err(e)
      case Ok(p) => Assemble(decode, acc + p, ts[1..])
  }

  /** The resume text of lines 51-60. */
  function ResumeText(decode: string -> Option<string>, pdf: PdfData): Result<string, string> {
    if pdf.pages.None? then Ok("") else Assemble(decode, "", Flatten(pdf.pages.value))
  }

  /** Lines 51-60, with their two nested loops. */
  method AssembleText(decode: string -> Option<string>, pdf: PdfData) returns (r: Result<string, string>)
    ensures r == ResumeText(decode, pdf)
  {
    var resumeText := "";
    if pdf.pages.Some? {
      var pages := pdf.pages.value;
      for i := 0 to |pages|
        invariant Assemble(decode, resumeText, Flatten(pages[i..])) == ResumeText(decode, pdf)
      {
        assert pages[i..][0] == pages[i] && pages[i..][1..] == pages[i + 1..];
        var rest := Flatten(pages[i + 1..]);
        if pages[i].texts.Some? {
          var texts := pages[i].texts.value;
          for j := 0 to |texts|
            invariant Assemble(decode, resumeText, texts[j..] + rest) == ResumeText(decode, pdf)
          {
            assert (texts[j..] + rest)[0] == texts[j] && (texts[j..] + rest)[1..] == texts[j + 1..] + rest;
            var piece := Piece(decode, texts[j]);
            if piece.Err? {
              return Err(piece.error);
            }
            resumeText := resumeText + piece.value;
          }
          assert texts[|texts|..] + rest == rest;
        } else {
          assert [] + rest == rest;
        }
      }
      assert pages[|pages|..] == [];
    }
    r := Ok(resumeText);
  }

  /** Assembling fails exactly when some text fails. */
  lemma {:induction false} AssembleFails(decode: string -> Option<string>, acc: string, ts: seq<PdfText>)
    ensures Assemble(decode, acc, ts).Err? <==> exists k :: 0 <= k < |ts| && Piece(decode, ts[k]).Err?
    decreases |ts|
  {
    if ts != [] && Piece(decode, ts[0]).Ok? {
      var p := Piece(decode, ts[0]).value;
      AssembleFails(decode, acc + p, ts[1..]);
      if exists k :: 0 <= k < |ts| && Piece(decode, ts[k]).Err? {
        var k :| 0 <= k < |ts| && Piece(decode, ts[k]).Err?;
        assert ts[1..][k - 1] == ts[k];
      }
      forall k | 0 <= k < |ts| - 1 && Piece(decode, ts[1..][k]).Err?
        ensures exists k' :: 0 <= k' < |ts| && Piece(decode, ts[k']).Err?
      {
        assert ts[1..][k] == ts[k + 1];
      }
    }
  }

  /** Texts are assembled in order: a run over `a + b` is the run over `a` continued over `b`. */
  lemma {:induction false} AssembleConcat(decode: string -> Option<string>, acc: string, a: seq<PdfText>, b: seq<PdfText>)
    ensures Assemble(decode, acc, a + b) ==
      match Assemble(decode, acc, a)
      case Err(e) => Err(e)
      case Ok(m) => Assemble(decode, m, b)
    decreases |a|
  {
    if a != [] {
      assert (a + b)[0] == a[0] && (a + b)[1..] == a[1..] + b;
      if Piece(decode, a[0]).Ok? {
        AssembleConcat(decode, acc + Piece(decode, a[0]).value, a[1..], b);
      }
    } else {
      assert a + b == b;
    }
  }

  /** What has been built is kept: every successful run extends its start, and each
      text adds at least its trailing space. */
  lemma {:induction false} AssembleExtends(decode: string -> Option<string>, acc: string, ts: seq<PdfText>)
    ensures Assemble(decode, acc, ts).Ok? ==>
      var s := Assemble(decode, acc, ts).value;
      |s| >= |acc| + |ts| && s[..|acc|] == acc
    decreases |ts|
  {
    if ts != [] && Piece(decode, ts[0]).Ok? {
      var p := Piece(decode, ts[0]).value;
      AssembleExtends(decode, acc + p, ts[1..]);
      var s := Assemble(decode, acc + p, ts[1..]);
      if s.Ok? {
        assert s.value[..|acc|] == (s.value[..|acc + p|])[..|acc|];
      }
    }
  }

  /** A single text yields its decoded first run and one space. */
  lemma OneText(decode: string -> Option<string>, t: PdfText, d: string)
    requires |t.runs| > 0 && decode(t.runs[0]) == Some(d)
    ensures ResumeText(decode, PdfData(Some([PdfPage(Some([t]))]))) == Ok(d + " ")
  {
    var pages := [PdfPage(Some([t]))];
    assert pages[1..] == [];
    assert Flatten(pages[1..]) == [];
    assert Flatten(pages) == [t] + [];
    assert [t][1..] == [];
    assert Piece(decode, t) == Ok(d + " ");
    assert "" + (d + " ") == d + " ";
    assert Assemble(decode, d + " ", []) == Ok(d + " ");
  }

  // ------------------------------------------------------------------ the model's reply

  const JsonFence := "```json"
  const Fence := "```"

  /** `text.replace(/```json|```/g, '')`: at each position the longer token is tried first. */
  function RemoveFences(s: string): (r: string)
    ensures |r| <= |s|
    decreases |s|
  {
    if |s| == 0 then ""
    else if StartsWith(s, JsonFence) then RemoveFences(s[|JsonFence|..])
    else if StartsWith(s, Fence) then RemoveFences(s[|Fence|..])
    else [s[0]] + RemoveFences(s[1..])
  }

  /** Text before the first backtick passes through unchanged. */
  lemma {:induction false} RemoveFencesPlain(a: string, b: string)
    requires '`' !in a
    ensures RemoveFences(a + b) == a + RemoveFences(b)
    decreases |a|
  {
    if |a| > 0 {
      var s := a + b;
      assert s[0] == a[0] && s[1..] == a[1..] + b;
      assert a[0] != '`' && JsonFence[0] == '`' && Fence[0] == '`';
      assert !StartsWith(s, JsonFence) && !StartsWith(s, Fence);
      assert '`' !in a[1..];
      RemoveFencesPlain(a[1..], b);
    } else {
      assert a + b == b;
    }
  }

  /** A reply wrapped in a ```json block loses exactly the wrapping. */
  lemma FencedReply(t: string)
    requires '`' !in t
    ensures RemoveFences(JsonFence + t + Fence) == t
  {
    var s := JsonFence + t + Fence;
    assert s[..|JsonFence|] == JsonFence;
    assert s[|JsonFence|..] == t + Fence;
    RemoveFencesPlain(t, Fence);
    assert Fence[|Fence|..] == "";
    assert t + "" == t;
  }

  /** Lines 102-105. */
  function CleanReply(text: string): (r: string)
    ensures Trimmed(r) && NoDoubleSpace(r) && PlainSpaces(r)
  {
    var c := CollapseSpaces(RemoveFences(text));
    TrimKeepsCollapsed(c);
    Trim(c)
  }

  /** Cleaning removes only the fences and white space: the other characters stay, in order. */
  lemma CleanKeepsContent(text: string)
    ensures RemoveSpaces(CleanReply(text)) == RemoveSpaces(RemoveFences(text))
  {
    TrimKeepsContent(CollapseSpaces(RemoveFences(text)));
    CollapseKeepsContent(RemoveFences(text));
  }

  /** Cleaning a reply that is already clean changes nothing. */
  lemma CleanOfClean(text: string)
    requires '`' !in text && Trimmed(text) && NoDoubleSpace(text) && PlainSpaces(text)
    ensures CleanReply(text) == text
  {
    RemoveFencesPlain(text, "");
    assert text + "" == text;
    CollapseFixed(text);
  }

  /** Lines 95-111: parse the reply; only when that fails, parse the cleaned reply. */
  function ParseReply(parse: string -> Result<Json, string>, text: string): Result<Json, string> {
    match parse(text)
    case Ok(j) => Ok(j)
    case Err(_) =>
      var cleaned := CleanReply(text);
      match parse(cleaned)
      case Ok(j) => Ok(j)
      case Err(m) => Err("Failed to parse Gemini response: " + m + ". Response: " + cleaned)
  }

  /** A fenced reply whose inside is already clean is read as its inside. */
  lemma ParseFencedReply(parse: string -> Result<Json, string>, t: string)
    requires '`' !in t && Trimmed(t) && NoDoubleSpace(t) && PlainSpaces(t)
    requires parse(JsonFence + t + Fence).Err? && parse(t).Ok?
    ensures ParseReply(parse, JsonFence + t + Fence) == parse(t)
  {
    FencedReply(t);
    CollapseFixed(t);
  }

  // ------------------------------------------------------------------ the shape check

  datatype Analysis = Analysis(score: Json, missingKeywords: seq<Json>, suggestions: seq<Json>)

  const ShapeError := "Invalid Gemini response format. Expected structure: { score: number, missingKeywords: string[], suggestions: string[] }"

  /** Lines 114-116, and the three fields copied at lines 126-130 and 139-143. */
  function CheckShape(a: Json): Result<Analysis, string> {
    if a.JNull? then Err("Cannot read properties of null (reading 'score')")
    else
      var score := Property(a, "score");
      var keywords := Property(a, "missingKeywords");
      var suggestions := Property(a, "suggestions");
      if score.None? || !Truthy(score.value) then Err(ShapeError)
      else if keywords.None? || !keywords.value.JArray? then Err(ShapeError)
      else if suggestions.None? || !suggestions.value.JArray? then Err(ShapeError)
      else Ok(Analysis(score.value, keywords.value.items, suggestions.value.items))
  }

  /** The check accepts exactly an object with a truthy score and two arrays, and the
      analysis it keeps is those three fields unchanged. */
  lemma CheckShapeExact(a: Json)
    ensures CheckShape(a).Ok? <==>
      && a.JObject? && "score" in a.fields && Truthy(a.fields["score"])
      && "missingKeywords" in a.fields && a.fields["missingKeywords"].JArray?
      && "suggestions" in a.fields && a.fields["suggestions"].JArray?
    ensures CheckShape(a).Ok? ==>
      CheckShape(a).value == Analysis(a.fields["score"], a.fields["missingKeywords"].items, a.fields["suggestions"].items)
  {
  }

  /** A score of 0 is rejected like a missing one. */
  lemma ZeroScoreRejected(fields: map<string, Json>)
    requires "score" in fields && fields["score"] == JNumber(0.0)
    ensures CheckShape(JObject(fields)) == Err(ShapeError)
  {
  }

  // ------------------------------------------------------------------ the handler

  datatype Upload = Upload(originalname: string, mimetype: string, buffer: Option<seq<bv8>>)

  datatype Request = Request(file: Option<Upload>, jobProfile: Option<string>, experienceLevel: Option<string>)

  datatype ResumeDoc = ResumeDoc(filename: string, pdfData: seq<bv8>, jobProfile: Option<string>,
                                 experienceLevel: Option<string>, analysis: Analysis)

  datatype Services = Services(
    pdf: seq<bv8> -> Result<PdfData, string>,
    decode: string -> Option<string>,
    generate: (Option<string>, Option<string>, string) -> Result<string, string>,
    parse: string -> Result<Json, string>,
    save: ResumeDoc -> Result<nat, string>)

  /** 400 answers carry a message, 500 answers the caught error's message. */
  datatype Response =
    | Rejected(message: string)
    | Failed(error: string)
    | Analysed(analysis: Analysis, resumeId: nat)

  function Status(r: Response): nat {
    match r
    case Rejected(_) => 400
    case Failed(_) => 500
    case Analysed(_, _) => 200
  }

  /** What the handler answers, and the document it stored if any. */
  datatype Outcome = Outcome(response: Response, stored: Option<ResumeDoc>)

  const NoFile := "No resume file uploaded. Ensure the file is sent with key \"resume\"."
  const NotPdf := "Only PDF files are supported"
  const NoBuffer := "Resume file data is not a valid Buffer"
  const NoText := "No text extracted from the PDF. The PDF may be empty or not contain readable text."

  /** The steps after a non-blank resume text (lines 68-145). */
  function AnalyzeText(sv: Services, req: Request, file: Upload, buffer: seq<bv8>, text: string): Outcome {
    match sv.generate(req.jobProfile, req.experienceLevel, text)
    case Err(e) => Outcome(Failed(e), None)
    case Ok(reply) =>
      match ParseReply(sv.parse, reply)
      case Err(e) => Outcome(Failed(e), None)
      case Ok(j) =>
        match CheckShape(j)
        case Err(e) => Outcome(Failed(e), None)
        case Ok(analysis) =>
          var doc := ResumeDoc(file.originalname, buffer, req.jobProfile, req.experienceLevel, analysis);
          match sv.save(doc)
          case Err(e) => Outcome(Failed(e), None)
          case Ok(id) => Outcome(Analysed(analysis, id), Some(doc))
  }

  /** analyzeResume (lines 5-154). */
  function Analyze(sv: Services, req: Request): Outcome {
    if req.file.None? then Outcome(Rejected(NoFile), None)
    else
      var file := req.file.value;
      if file.mimetype != "application/pdf" then Outcome(Rejected(NotPdf), None)
      else if file.buffer.None? then Outcome(Failed(NoBuffer), None)
      else match sv.pdf(file.buffer.value)
        case Err(e) => Outcome(Failed("Failed to parse PDF: " + e), None)
        case Ok(pdf) =>
          match ResumeText(sv.decode, pdf)
          case Err(e) => Outcome(Failed(e), None)
          case Ok(text) =>
            if Trim(text) == "" then Outcome(Failed(NoText), None)
            else AnalyzeText(sv, req, file, file.buffer.value, text)
  }

  method AnalyzeResume(sv: Services, req: Request) returns (o: Outcome)
    ensures o == Analyze(sv, req)
  {
    if req.file.None? {
      return Outcome(Rejected(NoFile), None);
    }
    var file := req.file.value;
    if file.mimetype != "application/pdf" {
      return Outcome(Rejected(NotPdf), None);
    }
    if file.buffer.None? {
      return Outcome(Failed(NoBuffer), None);
    }
    var pdf := sv.pdf(file.buffer.value);
    if pdf.Err? {
      return Outcome(Failed("Failed to parse PDF: " + pdf.error), None);
    }
    var text := AssembleText(sv.decode, pdf.value);
    if text.Err? {
      return Outcome(Failed(text.error), None);
    }
    if Trim(text.value) == "" {
      return Outcome(Failed(NoText), None);
    }
    o := AnalyzeText(sv, req, file, file.buffer.value, text.value);
  }

  // ------------------------------------------------------------------ handler properties

  /** The upload checks come first, in order: a missing file, then a type other than PDF. */
  lemma UploadChecks(sv: Services, req: Request)
    ensures req.file.None? ==> Analyze(sv, req) == Outcome(Rejected(NoFile), None)
    ensures req.file.Some? && req.file.value.mimetype != "application/pdf" ==>
      Analyze(sv, req) == Outcome(Rejected(NotPdf), None)
    ensures Status(Analyze(sv, req).response) == 400 <==>
      req.file.None? || req.file.value.mimetype != "application/pdf"
  {
    if req.file.Some? && req.file.value.buffer.Some? {
      AnalyzeTextAnswers(sv, req, req.file.value, req.file.value.buffer.value);
    }
  }

  /** After the upload checks the handler never answers 400. */
  lemma AnalyzeTextAnswers(sv: Services, req: Request, file: Upload, buffer: seq<bv8>)
    ensures forall text :: !AnalyzeText(sv, req, file, buffer, text).response.Rejected?
  {
  }

  /** A resume whose text is all white space fails, and the language model is not asked:
      the outcome is the same whatever it would have answered. */
  lemma BlankTextNotSent(sv: Services, req: Request, generate: (Option<string>, Option<string>, string) -> Result<string, string>)
    requires req.file.Some? && req.file.value.mimetype == "application/pdf" && req.file.value.buffer.Some?
    requires sv.pdf(req.file.value.buffer.value).Ok?
    requires ResumeText(sv.decode, sv.pdf(req.file.value.buffer.value).value).Ok?
    requires Blank(ResumeText(sv.decode, sv.pdf(req.file.value.buffer.value).value).value)
    ensures Analyze(sv, req) == Outcome(Failed(NoText), None)
    ensures Analyze(sv.(generate := generate), req) == Analyze(sv, req)
  {
    TrimEmptyIffBlank(ResumeText(sv.decode, sv.pdf(req.file.value.buffer.value).value).value);
  }

  /** A success stores exactly the analysis it answers with, which passed the shape check
      on what the reply parsed to, so its score is truthy. */
  lemma SuccessStoresAnswer(sv: Services, req: Request)
    ensures var o := Analyze(sv, req);
      o.response.Analysed? ==>
        && o.stored.Some? && o.stored.value.analysis == o.response.analysis
        && Truthy(o.response.analysis.score)
        && req.file.Some? && o.stored.value.filename == req.file.value.originalname
        && o.stored.value.jobProfile == req.jobProfile && o.stored.value.experienceLevel == req.experienceLevel
    ensures !Analyze(sv, req).response.Analysed? ==> Analyze(sv, req).stored.None?
  {
    var o := Analyze(sv, req);
    if o.response.Analysed? {
      var file := req.file.value;
      var text := ResumeText(sv.decode, sv.pdf(file.buffer.value).value).value;
      var reply := sv.generate(req.jobProfile, req.experienceLevel, text).value;
      var j := ParseReply(sv.parse, reply).value;
      CheckShapeExact(j);
    }
  }
}

/**
 * transcribe_batch from the top: pick the model, check that the PDF and the working files
 * exist, read the system instructions, load the whole plan, then run the group loop. The
 * machine the script runs on is an Env: which paths exist, what os.path.abspath returns for
 * the PDF, the instructions file, the lines of each text file and the service's replies.
 */
module Transcribe {
  import opened Wrappers
  import opened Text
  import opened Paths
  import opened Naming
  import opened RangeParser
  import opened GroupPlan
  import opened BatchRunner

  /** MODELS: the shorthand accepted for --model, and the model each one names. */
  const Models: map<string, string> := map[
    "25fl" := "gemini-2.5-flash-lite",
    "25f" := "gemini-2.5-flash",
    "25p" := "gemini-2.5-pro",
    "3fp" := "gemini-3-flash-preview"]

  /** The --model default. */
  const DefaultModel := "25fl"

  datatype Env = Env(
    existing: set<string>,           // the paths os.path.exists accepts
    absPdfPath: string,              // os.path.abspath(pdf_path)
    instructions: Option<string>,    // system_instruction.md, or None when it cannot be read
    linesOf: string -> seq<string>,  // the lines of each text file
    replies: nat -> Reply)           // the service's reply to the request for each group

  /** How transcribe_batch ends. */
  datatype Exit =
    | UnknownModel             // MODELS[model] raised KeyError
    | InputMissing             // "Cannot find input file ..."
    | NotInitialized           // "Project not correctly initialized; ..."
    | InstructionsUnreadable   // open(SYSTEM_INSTRUCTION_FILE) raised
    | BadPlan(error: ParseError)  // a line of the pages file raised in parse_range
    | Ran(status: Status)      // the group loop ran, and ended so

  /** Everything before the group loop: either the early exit, or the job the loop runs. */
  function Setup(env: Env, pdfPath: string, pagesFile: Option<string>, modelKey: string, skip: set<int>): Result<Job, Exit>
  {
    if modelKey !in Models then Err(UnknownModel)
    else if pdfPath !in env.existing then Err(InputMissing)
    else
      var (pdfDir, pdfName) := PdfDirAndName(pdfPath, env.absPdfPath);
      var imageDir := ImageDir(pdfDir, pdfName);
      var pages := PagesFile(pagesFile, pdfDir, pdfName);
      if !(imageDir in env.existing && pages in env.existing) then Err(NotInitialized)
      else
        match env.instructions
        case None => Err(InstructionsUnreadable)
        case Some(instructions) =>
          match LoadPlan(env.linesOf(pages))
          case Err(e) => Err(BadPlan(e))
          case Ok(plan) =>
            Ok(Job(modelKey, Models[modelKey], imageDir, instructions, plan, skip, env.existing, env.replies))
  }

  /** transcribe_batch: the early exits leave the output directory alone; otherwise the
      loop runs on the job Setup describes. */
  method TranscribeBatch(ws: Workspace, env: Env, pdfPath: string, pagesFile: Option<string>, modelKey: string, skip: set<int>)
    returns (exit: Exit)
    modifies ws
    ensures Setup(env, pdfPath, pagesFile, modelKey, skip).Err? ==>
      && exit == Setup(env, pdfPath, pagesFile, modelKey, skip).error
      && ws.files == old(ws.files) && ws.log == old(ws.log)
    ensures Setup(env, pdfPath, pagesFile, modelKey, skip).Ok? ==>
      var job := Setup(env, pdfPath, pagesFile, modelKey, skip).value;
      && exit == Ran(RunFrom(job, 0).status)
      && ws.log == old(ws.log) + RunFrom(job, 0).trace
      && ws.files == Replay(old(ws.files), RunFrom(job, 0).trace)
  {
    if modelKey !in Models {
      return UnknownModel;
    }
    var modelName := Models[modelKey];
    if pdfPath !in env.existing {
      return InputMissing;
    }
    var (pdfDir, pdfName) := PdfDirAndName(pdfPath, env.absPdfPath);
    var imageDir := ImageDir(pdfDir, pdfName);
    var pages := PagesFile(pagesFile, pdfDir, pdfName);
    if !(imageDir in env.existing && pages in env.existing) {
      return NotInitialized;
    }
    if env.instructions.None? {
      return InstructionsUnreadable;
    }
    var plan := LoadPlan(env.linesOf(pages));
    if plan.Err? {
      return BadPlan(plan.error);
    }
    var job := Job(modelKey, modelName, imageDir, env.instructions.value, plan.value, skip, env.existing, env.replies);
    var status := RunBatch(ws, job);
    return Ran(status);
  }

  /** Every key of MODELS is a short name without '/'. */
  lemma ModelsSpec()
    ensures forall key :: key in Models ==> key != [] && '/' !in key
  {
  }

  /** The --model default is a key of MODELS, the cheapest model. */
  lemma DefaultModelKnown()
    ensures DefaultModel in Models && Models[DefaultModel] == "gemini-2.5-flash-lite"
  {
  }

  /** The loop runs exactly when the model key is known, the PDF, the working directory and
      the pages file exist, the instructions could be read and every line of the pages file
      parses; the transcripts then go to a working directory that exists. */
  lemma SetupOkIff(env: Env, pdfPath: string, pagesFile: Option<string>, modelKey: string, skip: set<int>)
    ensures Setup(env, pdfPath, pagesFile, modelKey, skip).Ok? <==>
      && modelKey in Models
      && pdfPath in env.existing
      && ImageDir(PdfDirAndName(pdfPath, env.absPdfPath).0, PdfDirAndName(pdfPath, env.absPdfPath).1) in env.existing
      && PagesFile(pagesFile, PdfDirAndName(pdfPath, env.absPdfPath).0, PdfDirAndName(pdfPath, env.absPdfPath).1) in env.existing
      && env.instructions.Some?
      && LoadPlan(env.linesOf(PagesFile(pagesFile, PdfDirAndName(pdfPath, env.absPdfPath).0, PdfDirAndName(pdfPath, env.absPdfPath).1))).Ok?
    ensures Setup(env, pdfPath, pagesFile, modelKey, skip).Ok? ==>
      Setup(env, pdfPath, pagesFile, modelKey, skip).value.imageDir in env.existing
  {
    var r := Setup(env, pdfPath, pagesFile, modelKey, skip);
    var (pdfDir, pdfName) := PdfDirAndName(pdfPath, env.absPdfPath);
    var imageDir := ImageDir(pdfDir, pdfName);
    var pages := PagesFile(pagesFile, pdfDir, pdfName);
    if modelKey in Models && pdfPath in env.existing && imageDir in env.existing && pages in env.existing
      && env.instructions.Some?
    {
      if LoadPlan(env.linesOf(pages)).Ok? {
        assert r.Ok? && r.value.imageDir == imageDir;
      } else {
        assert r.Err?;
      }
    } else {
      assert r.Err?;
    }
  }

  /** When the loop runs, it runs with the model MODELS names, the instructions as read, the
      plan loaded from the pages file, and the working directory next to the PDF. */
  lemma SetupSpec(env: Env, pdfPath: string, pagesFile: Option<string>, modelKey: string, skip: set<int>)
    requires Setup(env, pdfPath, pagesFile, modelKey, skip).Ok?
    ensures modelKey in Models
    ensures Setup(env, pdfPath, pagesFile, modelKey, skip).value.modelKey == modelKey
    ensures Setup(env, pdfPath, pagesFile, modelKey, skip).value.modelName == Models[modelKey]
    ensures Setup(env, pdfPath, pagesFile, modelKey, skip).value.skip == skip
    ensures Some(Setup(env, pdfPath, pagesFile, modelKey, skip).value.instructions) == env.instructions
    ensures Ok(Setup(env, pdfPath, pagesFile, modelKey, skip).value.plan) ==
      LoadPlan(env.linesOf(PagesFile(pagesFile, PdfDirAndName(pdfPath, env.absPdfPath).0, PdfDirAndName(pdfPath, env.absPdfPath).1)))
    ensures Setup(env, pdfPath, pagesFile, modelKey, skip).value.imageDir ==
      ImageDir(PdfDirAndName(pdfPath, env.absPdfPath).0, PdfDirAndName(pdfPath, env.absPdfPath).1)
  {
  }

  /** Every transcript of a run is written inside the working directory, under its own name. */
  lemma SetupOutputs(env: Env, pdfPath: string, pagesFile: Option<string>, modelKey: string, skip: set<int>, pages: seq<nat>)
    requires Setup(env, pdfPath, pagesFile, modelKey, skip).Ok?
    ensures Dirname(OutputPath(Setup(env, pdfPath, pagesFile, modelKey, skip).value.imageDir, modelKey, pages)) ==
      Setup(env, pdfPath, pagesFile, modelKey, skip).value.imageDir
    ensures Basename(OutputPath(Setup(env, pdfPath, pagesFile, modelKey, skip).value.imageDir, modelKey, pages)) ==
      OutputName(modelKey, pages)
  {
    SetupSpec(env, pdfPath, pagesFile, modelKey, skip);
    ModelsSpec();
    PdfNamePlain(pdfPath, env.absPdfPath);
    var imageDir := Setup(env, pdfPath, pagesFile, modelKey, skip).value.imageDir;
    OutputPathSpec(imageDir, modelKey, pages);
  }

  /** A pages file with a line that does not parse stops the script before the loop: no
      request is sent and no file is written. */
  lemma BadLineStopsEverything(env: Env, pdfPath: string, pagesFile: Option<string>, modelKey: string, skip: set<int>, j: nat)
    requires modelKey in Models && pdfPath in env.existing && env.instructions.Some?
    requires var (pdfDir, pdfName) := PdfDirAndName(pdfPath, env.absPdfPath);
      var lines := env.linesOf(PagesFile(pagesFile, pdfDir, pdfName));
      && ImageDir(pdfDir, pdfName) in env.existing
      && PagesFile(pagesFile, pdfDir, pdfName) in env.existing
      && j < |lines| && Strip(lines[j]) != [] && Parse(Strip(lines[j])).Err?
    ensures Setup(env, pdfPath, pagesFile, modelKey, skip).Err?
    ensures Setup(env, pdfPath, pagesFile, modelKey, skip).error.BadPlan?
  {
    var (pdfDir, pdfName) := PdfDirAndName(pdfPath, env.absPdfPath);
    BadLineFails(env.linesOf(PagesFile(pagesFile, pdfDir, pdfName)), j);
  }
}

/**
 * The group loop of transcribe_batch. For each letter of the plan, in order: skip it if its
 * index was asked to be skipped; otherwise collect its page images (stopping at the first one
 * missing), send them with the prompt, stop if the request raises or returns no candidates,
 * write the transcript, and sleep COOLDOWN seconds. Any stop ends the whole run.
 *
 * The service is an oracle: the reply to the request for group i is replies(i). The files
 * the loop writes live in a Workspace, which also keeps a log of what the loop did.
 */
module BatchRunner {
  import opened Wrappers
  import opened Paths
  import opened Naming

  /** COOLDOWN: seconds slept after each transcript is written. */
  const Cooldown: nat := 5

  /** What generate_content does with a request. */
  datatype Reply =
    | Transcript(text: string)  // candidates present and response.text holds the transcript
    | NoText                    // candidates present but response.text is None
    | NoCandidates              // no candidates: the request was blocked or failed
    | Raised                    // generate_content raised (network error, rate limit, ...)

  /** One element of content_items. */
  datatype Item = Image(path: string) | Prompt(text: string)

  /** Why a run stopped early. */
  datatype Failure =
    | MissingImage(fileName: string)  // "Warning: File ... not found. Exiting."
    | CandidatesMissing               // "Error: No candidates returned."
    | RequestRaised                   // the exception handler, for generate_content
    | WriteRaised                     // the exception handler, for out_f.write(None)

  datatype Status = Finished | Aborted(group: nat, failure: Failure)

  /** What the loop does that can be observed, tagged with the index of the group. */
  datatype Event =
    | Skipped(group: nat)
    | Requested(group: nat, model: string, contents: seq<Item>, instructions: string)
    | Wrote(group: nat, path: string, text: string)
    | Truncated(group: nat, path: string)  // open(path, 'w') emptied the file, then write failed
    | Slept(group: nat, seconds: nat)

  /** The inputs of one run of the loop. */
  datatype Job = Job(
    modelKey: string,          // the MODELS key, part of every output name
    modelName: string,         // MODELS[model_key], sent with every request
    imageDir: string,          // where the page images are, and where transcripts go
    instructions: string,      // the system instructions, passed through unchanged
    plan: seq<seq<nat>>,       // pages_list
    skip: set<int>,            // skip_letters
    existing: set<string>,     // the image paths that exist
    replies: nat -> Reply)     // the service's reply to the request for each group

  datatype Run = Run(status: Status, trace: seq<Event>)

  /** The loop body's verdict on one group: go on with the next group, or stop. */
  datatype Outcome = Continue(events: seq<Event>) | Stop(failure: Failure, events: seq<Event>)

  /** The page images of a page list, in page order, or the file name of the first page whose
      image does not exist. */
  function Images(imageDir: string, existing: set<string>, pages: seq<nat>): Result<seq<Item>, string>
  {
    if pages == [] then Ok([])
    else
      var last := pages[|pages| - 1];
      match Images(imageDir, existing, pages[..|pages| - 1])
      case Err(name) => Err(name)
      case Ok(items) =>
        if ImagePath(imageDir, last) in existing then Ok(items + [Image(ImagePath(imageDir, last))])
        else Err(ImageName(last))
  }

  /** content_items: the images followed by the prompt naming the pages. */
  function Contents(imageDir: string, existing: set<string>, pages: seq<nat>): Result<seq<Item>, string>
  {
    match Images(imageDir, existing, pages)
    case Err(name) => Err(name)
    case Ok(items) => Ok(items + [Prompt(UserPrompt(pages))])
  }

  /** One iteration of the loop, for group i. */
  function Step(job: Job, i: nat): Outcome
    requires i < |job.plan|
  {
    var pages := job.plan[i];
    if i in job.skip then Continue([Skipped(i)])
    else
      match Contents(job.imageDir, job.existing, pages)
      case Err(name) => Stop(MissingImage(name), [])
      case Ok(items) =>
        var request := Requested(i, job.modelName, items, job.instructions);
        var path := OutputPath(job.imageDir, job.modelKey, pages);
        match job.replies(i)
        case Raised => Stop(RequestRaised, [request])
        case NoCandidates => Stop(CandidatesMissing, [request])
        case NoText => Stop(WriteRaised, [request, Truncated(i, path)])
        case Transcript(text) => Continue([request, Wrote(i, path, text), Slept(i, Cooldown)])
  }

  /** The loop from group i on: what it ends in and what it does. */
  function RunFrom(job: Job, i: nat): Run
    decreases |job.plan| - i
  {
    if i >= |job.plan| then Run(Finished, [])
    else
      match Step(job, i)
      case Stop(failure, events) => Run(Aborted(i, failure), events)
      case Continue(events) =>
        var rest := RunFrom(job, i + 1);
        Run(rest.status, events + rest.trace)
  }

  /** The effect of one event on the output files: open(path, 'w') replaces the contents. */
  function Apply(files: map<string, string>, e: Event): map<string, string>
  {
    match e
    case Wrote(_, path, text) => files[path := text]
    case Truncated(_, path) => files[path := ""]
    case _ => files
  }

  /** The output files after a sequence of events. */
  function Replay(files: map<string, string>, trace: seq<Event>): map<string, string>
  {
    if trace == [] then files else Apply(Replay(files, trace[..|trace| - 1]), trace[|trace| - 1])
  }

  /** Replaying two stretches of events one after the other is replaying both. */
  lemma {:induction false} ReplayAppend(files: map<string, string>, a: seq<Event>, b: seq<Event>)
    ensures Replay(files, a + b) == Replay(Replay(files, a), b)
    decreases |b|
  {
    if b == [] {
      assert a + b == a;
    } else {
      assert (a + b)[..|a + b| - 1] == a + b[..|b| - 1];
      ReplayAppend(files, a, b[..|b| - 1]);
    }
  }

  /** RunFrom(job, i) in terms of the step at i and the run from i + 1. */
  lemma RunFromUnfold(job: Job, i: nat)
    requires i < |job.plan|
    ensures Step(job, i).Stop? ==> RunFrom(job, i) == Run(Aborted(i, Step(job, i).failure), Step(job, i).events)
    ensures Step(job, i).Continue? ==>
      RunFrom(job, i) == Run(RunFrom(job, i + 1).status, Step(job, i).events + RunFrom(job, i + 1).trace)
  {
  }

  lemma AppendAssoc(a: seq<Event>, b: seq<Event>, c: seq<Event>)
    ensures a + (b + c) == (a + b) + c
  {
  }

  /** The output directory and the log of what the loop did. */
  class Workspace {
    var files: map<string, string>
    var log: seq<Event>

    constructor(files0: map<string, string>)
      ensures files == files0 && log == []
    {
      files := files0;
      log := [];
    }

    /** Carry out one event: write or truncate a file for a write, and log it. */
    method Perform(e: Event)
      modifies this
      ensures files == Apply(old(files), e)
      ensures log == old(log) + [e]
    {
      match e {
        case Wrote(_, path, text) => files := files[path := text];
        case Truncated(_, path) => files := files[path := ""];
        case _ =>
      }
      log := log + [e];
    }
  }

  /** Once a prefix of the pages misses an image, the whole list does, with the same name. */
  lemma {:induction false} ImagesMissingPrefix(imageDir: string, existing: set<string>, pages: seq<nat>, n: nat)
    requires n <= |pages| && Images(imageDir, existing, pages[..n]).Err?
    ensures Images(imageDir, existing, pages) == Images(imageDir, existing, pages[..n])
    decreases |pages| - n
  {
    if n < |pages| {
      var longer := pages[..n + 1];
      assert longer[..|longer| - 1] == pages[..n];
      ImagesMissingPrefix(imageDir, existing, pages, n + 1);
    } else {
      assert pages[..n] == pages;
    }
  }

  /** The "BUILD REQUEST" loop: each page's image in order, then the prompt; stops at the
      first page whose image does not exist. */
  method BuildContents(imageDir: string, existing: set<string>, pages: seq<nat>)
    returns (r: Result<seq<Item>, string>)
    ensures r == Contents(imageDir, existing, pages)
  {
    var items: seq<Item> := [];
    var k := 0;
    while k < |pages|
      invariant 0 <= k <= |pages|
      invariant Images(imageDir, existing, pages[..k]) == Ok(items)
    {
      assert pages[..k + 1][..k] == pages[..k];
      var fileName := ImageName(pages[k]);
      var filePath := PathJoin(imageDir, fileName);
      if filePath !in existing {
        ImagesMissingPrefix(imageDir, existing, pages, k + 1);
        return Err(fileName);
      }
      items := items + [Image(filePath)];
      k := k + 1;
    }
    assert pages[..k] == pages;
    return Ok(items + [Prompt(UserPrompt(pages))]);
  }

  /** One iteration of the loop on ws: it performs the events Step(job, i) lists. */
  method ProcessGroup(ws: Workspace, job: Job, i: nat) returns (outcome: Outcome)
    requires i < |job.plan|
    modifies ws
    ensures outcome == Step(job, i)
    ensures ws.log == old(ws.log) + outcome.events
    ensures ws.files == Replay(old(ws.files), outcome.events)
  {
    var pages := job.plan[i];
    if i in job.skip {
      ws.Perform(Skipped(i));
      assert [Skipped(i)][..0] == [];
      return Continue([Skipped(i)]);
    }
    var contents := BuildContents(job.imageDir, job.existing, pages);
    if contents.Err? {
      return Stop(MissingImage(contents.error), []);
    }
    var request := Requested(i, job.modelName, contents.value, job.instructions);
    ws.Perform(request);
    assert [request][..0] == [];
    var outputPath := OutputPath(job.imageDir, job.modelKey, pages);
    match job.replies(i) {
      case Raised =>
        return Stop(RequestRaised, [request]);
      case NoCandidates =>
        return Stop(CandidatesMissing, [request]);
      case NoText =>
        ws.Perform(Truncated(i, outputPath));
        assert [request, Truncated(i, outputPath)][..1] == [request];
        assert Replay(old(ws.files), [request]) == old(ws.files);
        return Stop(WriteRaised, [request, Truncated(i, outputPath)]);
      case Transcript(text) =>
        ws.Perform(Wrote(i, outputPath, text));
        ws.Perform(Slept(i, Cooldown));
        var events := [request, Wrote(i, outputPath, text), Slept(i, Cooldown)];
        assert events[..2] == [request, Wrote(i, outputPath, text)];
        assert events[..2][..1] == [request];
        assert Replay(old(ws.files), [request]) == old(ws.files);
        assert Replay(old(ws.files), events[..2]) == old(ws.files)[outputPath := text];
        return Continue(events);
    }
  }

  /** The loop over the plan. It performs on ws exactly the events RunFrom(job, 0) lists and
      ends as RunFrom(job, 0) ends. */
  method RunBatch(ws: Workspace, job: Job) returns (status: Status)
    modifies ws
    ensures status == RunFrom(job, 0).status
    ensures ws.log == old(ws.log) + RunFrom(job, 0).trace
    ensures ws.files == Replay(old(ws.files), RunFrom(job, 0).trace)
  {
    ghost var done: seq<Event> := [];
    var i := 0;
    while i < |job.plan|
      invariant 0 <= i <= |job.plan|
      invariant RunFrom(job, 0).status == RunFrom(job, i).status
      invariant RunFrom(job, 0).trace == done + RunFrom(job, i).trace
      invariant ws.log == old(ws.log) + done
      invariant ws.files == Replay(old(ws.files), done)
    {
      var outcome := ProcessGroup(ws, job, i);
      ReplayAppend(old(ws.files), done, outcome.events);
      RunFromUnfold(job, i);
      AppendAssoc(old(ws.log), done, outcome.events);
      if outcome.Stop? {
        return Aborted(i, outcome.failure);
      }
      AppendAssoc(done, outcome.events, RunFrom(job, i + 1).trace);
      done := done + outcome.events;
      i := i + 1;
    }
    assert done + [] == done;
    return Finished;
  }
}

/**
 * What a run of the group loop does, stated over RunFrom(job, i) for every starting group i:
 * how it ends, which events it performs and in which order, and which transcripts the output
 * directory holds afterwards.
 */
module BatchProperties {
  import opened Wrappers
  import opened Naming
  import opened BatchRunner
  import opened Traces

  /** Group g lets the loop go on: it is skipped, or all its page images exist and the
      service answers with a transcript. */
  predicate Proceeds(job: Job, g: nat)
    requires g < |job.plan|
  {
    g in job.skip || (Contents(job.imageDir, job.existing, job.plan[g]).Ok? && job.replies(g).Transcript?)
  }

  /** Why a group that does not let the loop go on stops it: a missing page image first, then
      the service raising, then no candidates, then a reply without text. */
  function Cause(job: Job, g: nat): Failure
    requires g < |job.plan| && !Proceeds(job, g)
  {
    match Contents(job.imageDir, job.existing, job.plan[g])
    case Err(name) => MissingImage(name)
    case Ok(_) =>
      if job.replies(g).Raised? then RequestRaised
      else if job.replies(g).NoCandidates? then CandidatesMissing
      else WriteRaised
  }

  /** Group g, at or after i, is one the run from i got past: the run finished, or it
      stopped at a later group. */
  predicate Passed(job: Job, i: nat, g: nat)
  {
    i <= g < |job.plan| && (RunFrom(job, i).status.Finished? || g < RunFrom(job, i).status.group)
  }

  /** Group h, at or after i, is one the run from i reached: the run finished, or it stopped
      at h or at a later group. */
  predicate Reached(job: Job, i: nat, h: nat)
  {
    i <= h < |job.plan| && (RunFrom(job, i).status.Finished? || h <= RunFrom(job, i).status.group)
  }

  /** The event e writes or truncates the file p. */
  predicate Touches(e: Event, p: string)
  {
    (e.Wrote? || e.Truncated?) && e.path == p
  }

  /** One group's step: it goes on exactly when the group proceeds, stops for the group's
      cause otherwise, and every event it performs is tagged with the group. */
  lemma StepSpec(job: Job, g: nat)
    requires g < |job.plan|
    ensures Step(job, g).Continue? <==> Proceeds(job, g)
    ensures Step(job, g).Stop? ==> Step(job, g).failure == Cause(job, g)
    ensures forall k :: 0 <= k < |Step(job, g).events| ==> Step(job, g).events[k].group == g
  {
  }

  /** Page k is the first page of the list whose image does not exist. */
  predicate FirstMissing(imageDir: string, existing: set<string>, pages: seq<nat>, k: int)
  {
    && 0 <= k < |pages| && ImagePath(imageDir, pages[k]) !in existing
    && forall m :: 0 <= m < k ==> ImagePath(imageDir, pages[m]) in existing
  }

  /** The images of a page list exist exactly when every page's image exists; then there is
      one per page, in page order. */
  lemma ImagesOk(imageDir: string, existing: set<string>, pages: seq<nat>)
    ensures Images(imageDir, existing, pages).Ok? <==>
      forall k :: 0 <= k < |pages| ==> ImagePath(imageDir, pages[k]) in existing
    ensures Images(imageDir, existing, pages).Ok? ==>
      var items := Images(imageDir, existing, pages).value;
      |items| == |pages| && forall k :: 0 <= k < |pages| ==> items[k] == Image(ImagePath(imageDir, pages[k]))
  {
    ImagesOkIff(imageDir, existing, pages);
    if Images(imageDir, existing, pages).Ok? {
      ImagesItems(imageDir, existing, pages);
      assert forall k :: 0 <= k < |pages| ==> PageImages(imageDir, pages)[k] == Image(ImagePath(imageDir, pages[k]));
    }
  }

  lemma {:induction false} ImagesOkIff(imageDir: string, existing: set<string>, pages: seq<nat>)
    ensures Images(imageDir, existing, pages).Ok? <==>
      forall k :: 0 <= k < |pages| ==> ImagePath(imageDir, pages[k]) in existing
    decreases |pages|
  {
    if pages != [] {
      var init := pages[..|pages| - 1];
      ImagesOkIff(imageDir, existing, init);
      assert forall k :: 0 <= k < |init| ==> init[k] == pages[k];
    }
  }

  /** One image per page, in page order. */
  function PageImages(imageDir: string, pages: seq<nat>): seq<Item>
  {
    seq(|pages|, k requires 0 <= k < |pages| => Image(ImagePath(imageDir, pages[k])))
  }

  lemma {:induction false} ImagesItems(imageDir: string, existing: set<string>, pages: seq<nat>)
    requires Images(imageDir, existing, pages).Ok?
    ensures Images(imageDir, existing, pages).value == PageImages(imageDir, pages)
    decreases |pages|
  {
    if pages != [] {
      ImagesLast(imageDir, existing, pages);
      ImagesItems(imageDir, existing, pages[..|pages| - 1]);
      PageImagesLast(imageDir, pages);
    }
  }

  /** A successful collection is that of all pages but the last, then the last page's image. */
  lemma ImagesLast(imageDir: string, existing: set<string>, pages: seq<nat>)
    requires pages != [] && Images(imageDir, existing, pages).Ok?
    ensures Images(imageDir, existing, pages[..|pages| - 1]).Ok?
    ensures Images(imageDir, existing, pages).value ==
      Images(imageDir, existing, pages[..|pages| - 1]).value + [Image(ImagePath(imageDir, pages[|pages| - 1]))]
  {
  }

  lemma PageImagesLast(imageDir: string, pages: seq<nat>)
    requires pages != []
    ensures PageImages(imageDir, pages) ==
      PageImages(imageDir, pages[..|pages| - 1]) + [Image(ImagePath(imageDir, pages[|pages| - 1]))]
  {
    var init := pages[..|pages| - 1];
    assert forall k :: 0 <= k < |init| ==> init[k] == pages[k];
  }

  /** When an image is missing, the name reported is that of the first page whose image is
      missing. */
  lemma {:induction false} ImagesErr(imageDir: string, existing: set<string>, pages: seq<nat>)
    ensures Images(imageDir, existing, pages).Err? ==>
      exists k :: FirstMissing(imageDir, existing, pages, k) && Images(imageDir, existing, pages).error == ImageName(pages[k])
    decreases |pages|
  {
    if pages != [] {
      var init := pages[..|pages| - 1];
      ImagesErr(imageDir, existing, init);
      ImagesOk(imageDir, existing, init);
      var r := Images(imageDir, existing, init);
      if r.Err? {
        var k :| FirstMissing(imageDir, existing, init, k) && r.error == ImageName(init[k]);
        assert init[k] == pages[k];
        assert forall m :: 0 <= m < k ==> init[m] == pages[m];
        assert FirstMissing(imageDir, existing, pages, k);
      } else if ImagePath(imageDir, pages[|pages| - 1]) !in existing {
        assert forall m :: 0 <= m < |pages| - 1 ==> init[m] == pages[m];
        assert FirstMissing(imageDir, existing, pages, |pages| - 1);
      }
    }
  }

  /** content_items: for a page list whose images all exist, one image per page in page
      order followed by exactly one prompt quoting the list, |pages| + 1 items in all;
      otherwise the first missing image's name. */
  lemma ContentsSpec(imageDir: string, existing: set<string>, pages: seq<nat>)
    ensures Contents(imageDir, existing, pages).Ok? <==>
      forall k :: 0 <= k < |pages| ==> ImagePath(imageDir, pages[k]) in existing
    ensures Contents(imageDir, existing, pages).Ok? ==>
      var items := Contents(imageDir, existing, pages).value;
      && |items| == |pages| + 1
      && (forall k :: 0 <= k < |pages| ==> items[k] == Image(ImagePath(imageDir, pages[k])))
      && items[|pages|] == Prompt(UserPrompt(pages))
    ensures Contents(imageDir, existing, pages).Err? ==>
      exists k :: FirstMissing(imageDir, existing, pages, k) && Contents(imageDir, existing, pages).error == ImageName(pages[k])
  {
    ImagesOk(imageDir, existing, pages);
    ImagesErr(imageDir, existing, pages);
  }

  /** The outcome of every group of the plan, in plan order. */
  function Steps(job: Job): seq<Outcome>
  {
    seq(|job.plan|, g requires 0 <= g < |job.plan| => Step(job, g))
  }

  /** The loop from group i on is the fold over the outcomes of the groups. */
  lemma {:induction false} RunFromIsRunOf(job: Job, i: nat)
    ensures RunFrom(job, i) == RunOf(Steps(job), i)
    decreases |job.plan| - i
  {
    if i < |job.plan| {
      RunFromIsRunOf(job, i + 1);
      assert Steps(job)[i] == Step(job, i);
    }
  }

  /** Every group's outcome has one of the shapes the trace facts rely on. */
  lemma StepsShaped(job: Job)
    ensures AllShaped(Steps(job), job.skip)
  {
    forall g | 0 <= g < |job.plan| ensures Shaped(Steps(job)[g], g, job.skip) {
      StepShaped(job, g);
    }
  }

  lemma StepShaped(job: Job, g: nat)
    requires g < |job.plan|
    ensures Shaped(Step(job, g), g, job.skip)
  {
  }

  /** The run from i finishes exactly when every group from i on proceeds. */
  lemma FinishedIff(job: Job, i: nat)
    ensures RunFrom(job, i).status == Finished <==> forall g :: i <= g < |job.plan| ==> Proceeds(job, g)
  {
    RunFromIsRunOf(job, i);
    RunOfStatus(Steps(job), i);
    forall g | i <= g < |job.plan| ensures Steps(job)[g].Continue? <==> Proceeds(job, g) {
      StepSpec(job, g);
    }
  }

  /** A run that stops, stops at a group it reached that is not skipped and does not
      proceed, for that group's cause; every group before it proceeded. */
  lemma AbortedSpec(job: Job, i: nat)
    ensures RunFrom(job, i).status.Aborted? ==>
      && i <= RunFrom(job, i).status.group < |job.plan|
      && RunFrom(job, i).status.group !in job.skip
      && !Proceeds(job, RunFrom(job, i).status.group)
      && RunFrom(job, i).status.failure == Cause(job, RunFrom(job, i).status.group)
      && forall g :: i <= g < RunFrom(job, i).status.group ==> Proceeds(job, g)
  {
    RunFromIsRunOf(job, i);
    RunOfStatus(Steps(job), i);
    forall g | i <= g < |job.plan|
      ensures Steps(job)[g].Continue? <==> Proceeds(job, g)
      ensures Steps(job)[g].Stop? ==> Steps(job)[g].failure == Cause(job, g)
    {
      StepSpec(job, g);
    }
  }

  /** The first group from i on that does not proceed is where the run stops, and why. */
  lemma FirstFailureStops(job: Job, i: nat, j: nat)
    requires i <= j < |job.plan| && !Proceeds(job, j)
    requires forall g :: i <= g < j ==> Proceeds(job, g)
    ensures RunFrom(job, i).status == Aborted(j, Cause(job, j))
  {
    FinishedIff(job, i);
    AbortedSpec(job, i);
  }

  /** Every group the run got past proceeded. */
  lemma PassedProceeds(job: Job, i: nat, g: nat)
    requires Passed(job, i, g)
    ensures Proceeds(job, g)
  {
    FinishedIff(job, i);
    AbortedSpec(job, i);
  }

  /** The trace visits groups in plan order: every event belongs to a group from i on, the
      groups never go back, and none comes after the group the run stopped at. */
  lemma TraceGroups(job: Job, i: nat)
    ensures InGroups(RunFrom(job, i).trace, i, |job.plan|) && InOrder(RunFrom(job, i).trace)
    ensures RunFrom(job, i).status.Aborted? ==>
      InGroups(RunFrom(job, i).trace, i, RunFrom(job, i).status.group + 1)
  {
    RunFromIsRunOf(job, i);
    StepsShaped(job);
    RunOfGroups(Steps(job), job.skip, i);
  }

  /** A skipped group shows up only as its skip: the events of skipped groups are exactly
      the Skipped events, and each skipped group the run got past was logged as skipped. */
  lemma SkipRespected(job: Job, i: nat)
    ensures SkipsOnly(RunFrom(job, i).trace, job.skip)
    ensures forall g: nat :: Passed(job, i, g) && g in job.skip ==> Skipped(g) in RunFrom(job, i).trace
  {
    RunFromIsRunOf(job, i);
    StepsShaped(job);
    RunOfSkips(Steps(job), job.skip, i);
    RunOfPassedEvents(Steps(job), i);
    forall g: nat | Passed(job, i, g) && g in job.skip ensures Skipped(g) in RunFrom(job, i).trace {
      assert PassedOf(Steps(job), i, g);
      assert Shaped(Steps(job)[g], g, job.skip);
      assert Steps(job)[g].events[0] == Skipped(g);
    }
  }

  /** Each write is followed at once by the cooldown sleep of its group, including the
      write of the last group, and each sleep comes right after a write of its group. */
  lemma SleepAfterEachWrite(job: Job, i: nat)
    ensures CooldownFollows(RunFrom(job, i).trace)
  {
    RunFromIsRunOf(job, i);
    StepsShaped(job);
    RunOfCooldown(Steps(job), job.skip, i);
  }

  /** Files are written or truncated only right after the request of their group, that is,
      only once the service has answered with candidates. */
  lemma WritesFollowRequests(job: Job, i: nat)
    ensures AnsweredRequests(RunFrom(job, i).trace)
  {
    RunFromIsRunOf(job, i);
    StepsShaped(job);
    RunOfAnswered(Steps(job), job.skip, i);
  }

  /** A truncation is the last thing a run does: it ends the run, stopped at the truncated
      file's group because writing the missing text raised. */
  lemma TruncationEndsRun(job: Job, i: nat)
    ensures forall k :: 0 <= k < |RunFrom(job, i).trace| && RunFrom(job, i).trace[k].Truncated? ==>
      && k == |RunFrom(job, i).trace| - 1
      && RunFrom(job, i).status == Aborted(RunFrom(job, i).trace[k].group, WriteRaised)
  {
    RunFromIsRunOf(job, i);
    StepsShaped(job);
    RunOfTruncation(Steps(job), job.skip, i);
  }

  /** The group a run stops at leaves no write and no sleep: nothing at all when an image is
      missing, only its request when the service raised or gave no candidates, and its
      request and the truncation when the reply had no text. */
  lemma FailingGroupEvents(job: Job, i: nat)
    ensures RunFrom(job, i).status.Aborted? ==>
      forall k :: 0 <= k < |RunFrom(job, i).trace| && RunFrom(job, i).trace[k].group == RunFrom(job, i).status.group ==>
        && !RunFrom(job, i).status.failure.MissingImage?
        && (|| RunFrom(job, i).trace[k].Requested?
            || (RunFrom(job, i).trace[k].Truncated? && RunFrom(job, i).status.failure == WriteRaised))
  {
    RunFromIsRunOf(job, i);
    StepsShaped(job);
    RunOfFailingGroup(Steps(job), job.skip, i);
  }

  /** What each kind of event carries, given the inputs of the run: a skip is of a skipped
      group; a request goes to the model with the instructions and the group's full contents;
      a write puts the group's transcript into the group's output file; a truncation empties
      that file when the reply has no text; a sleep lasts COOLDOWN after a transcript. */
  predicate EventFits(job: Job, e: Event)
  {
    e.group < |job.plan| &&
    match e
    case Skipped(g) => g in job.skip
    case Requested(g, model, contents, instructions) =>
      && g !in job.skip && model == job.modelName && instructions == job.instructions
      && Contents(job.imageDir, job.existing, job.plan[g]) == Ok(contents)
    case Wrote(g, path, text) =>
      && g !in job.skip && job.replies(g) == Transcript(text)
      && path == OutputPath(job.imageDir, job.modelKey, job.plan[g])
    case Truncated(g, path) =>
      && g !in job.skip && job.replies(g) == NoText
      && path == OutputPath(job.imageDir, job.modelKey, job.plan[g])
    case Slept(g, seconds) => g !in job.skip && job.replies(g).Transcript? && seconds == Cooldown
  }

  predicate AllFit(job: Job, t: seq<Event>)
  {
    forall k :: 0 <= k < |t| ==> EventFits(job, t[k])
  }

  /** Every event of one group's step carries what the inputs say it should. */
  lemma StepFits(job: Job, g: nat)
    requires g < |job.plan|
    ensures AllFit(job, Step(job, g).events)
  {
    var contents := Contents(job.imageDir, job.existing, job.plan[g]);
    if g !in job.skip && contents.Ok? {
      var path := OutputPath(job.imageDir, job.modelKey, job.plan[g]);
      assert EventFits(job, Requested(g, job.modelName, contents.value, job.instructions));
      match job.replies(g)
      case Transcript(text) =>
        assert EventFits(job, Wrote(g, path, text)) && EventFits(job, Slept(g, Cooldown));
      case NoText =>
        assert EventFits(job, Truncated(g, path));
      case _ =>
    }
  }

  lemma FitAppend(job: Job, a: seq<Event>, b: seq<Event>)
    requires AllFit(job, a) && AllFit(job, b)
    ensures AllFit(job, a + b)
  {
    var t := a + b;
    assert forall k :: |a| <= k < |t| ==> t[k] == b[k - |a|];
  }

  lemma {:induction false} RunOfFits(job: Job, steps: seq<Outcome>, i: nat)
    requires forall g :: 0 <= g < |steps| ==> AllFit(job, steps[g].events)
    ensures AllFit(job, RunOf(steps, i).trace)
    decreases |steps| - i
  {
    if i < |steps| && steps[i].Continue? {
      RunOfFits(job, steps, i + 1);
      FitAppend(job, steps[i].events, RunOf(steps, i + 1).trace);
    }
  }

  /** Every event of a run carries what the inputs say it should. */
  lemma EventsFit(job: Job, i: nat)
    ensures AllFit(job, RunFrom(job, i).trace)
  {
    RunFromIsRunOf(job, i);
    forall g | 0 <= g < |job.plan| ensures AllFit(job, Steps(job)[g].events) {
      StepFits(job, g);
    }
    RunOfFits(job, Steps(job), i);
  }

  /** Every group the run got past that was not skipped had its transcript written to its
      output file. */
  lemma PassedGroupsWritten(job: Job, i: nat)
    ensures forall g: nat :: Passed(job, i, g) && g !in job.skip ==>
      && job.replies(g).Transcript?
      && Wrote(g, OutputPath(job.imageDir, job.modelKey, job.plan[g]), job.replies(g).text) in RunFrom(job, i).trace
  {
    RunFromIsRunOf(job, i);
    RunOfPassedEvents(Steps(job), i);
    forall g: nat | Passed(job, i, g) && g !in job.skip
      ensures job.replies(g).Transcript?
      ensures Wrote(g, OutputPath(job.imageDir, job.modelKey, job.plan[g]), job.replies(g).text) in RunFrom(job, i).trace
    {
      assert PassedOf(Steps(job), i, g);
      WrittenStep(job, g);
    }
  }

  /** A group that is not skipped and goes on writes its transcript to its output file. */
  lemma WrittenStep(job: Job, g: nat)
    requires g < |job.plan| && g !in job.skip && Step(job, g).Continue?
    ensures job.replies(g).Transcript?
    ensures |Step(job, g).events| == 3
    ensures Step(job, g).events[1] == Wrote(g, OutputPath(job.imageDir, job.modelKey, job.plan[g]), job.replies(g).text)
  {
  }

  /** The last event of a trace that touches p. */
  function LastTouch(t: seq<Event>, p: string): (k: int)
    ensures -1 <= k < |t|
    ensures k >= 0 ==> Touches(t[k], p)
    ensures forall m :: k < m < |t| ==> !Touches(t[m], p)
  {
    if t == [] then -1
    else if Touches(t[|t| - 1], p) then |t| - 1
    else LastTouch(t[..|t| - 1], p)
  }

  /** A file no event touches keeps what it held. */
  lemma {:induction false} ReplayFrame(files: map<string, string>, t: seq<Event>, p: string)
    requires forall k :: 0 <= k < |t| ==> !Touches(t[k], p)
    ensures p in Replay(files, t) <==> p in files
    ensures p in files ==> Replay(files, t)[p] == files[p]
    decreases |t|
  {
    if t != [] {
      var init := t[..|t| - 1];
      assert forall k :: 0 <= k < |init| ==> init[k] == t[k];
      ReplayFrame(files, init, p);
    }
  }

  /** open(path, 'w') replaces the file: after a write that no later event undoes, the file
      holds what was written, whatever it held before. */
  lemma {:induction false} ReplayLastWrite(files: map<string, string>, t: seq<Event>, k: nat)
    requires k < |t| && t[k].Wrote?
    requires forall m :: k < m < |t| ==> !Touches(t[m], t[k].path)
    ensures t[k].path in Replay(files, t) && Replay(files, t)[t[k].path] == t[k].text
    decreases |t|
  {
    var init := t[..|t| - 1];
    if k < |t| - 1 {
      assert forall m :: 0 <= m < |init| ==> init[m] == t[m];
      ReplayLastWrite(files, init, k);
    }
  }

  /** After a run, the output file of every group it got past that was not skipped holds that
      group's transcript, provided no later group that the run reached and did not skip lists
      the same pages (such a group would write or truncate the same file, and the later event
      wins). Groups after the one the run stopped at do not matter. */
  lemma TranscriptsKept(job: Job, i: nat, files: map<string, string>, g: nat)
    requires Passed(job, i, g) && g !in job.skip
    requires forall h :: g < h && Reached(job, i, h) && h !in job.skip ==> job.plan[h] != job.plan[g]
    ensures job.replies(g).Transcript?
    ensures OutputPath(job.imageDir, job.modelKey, job.plan[g]) in Replay(files, RunFrom(job, i).trace)
    ensures Replay(files, RunFrom(job, i).trace)[OutputPath(job.imageDir, job.modelKey, job.plan[g])]
      == job.replies(g).text
  {
    var t := RunFrom(job, i).trace;
    var p := OutputPath(job.imageDir, job.modelKey, job.plan[g]);
    PassedGroupsWritten(job, i);
    var k0 :| 0 <= k0 < |t| && t[k0] == Wrote(g, p, job.replies(g).text);
    var k := LastTouch(t, p);
    assert Touches(t[k0], p);
    OwnLastTouch(job, i, g, k0, k);
    TouchFits(job, i, p, k);
    ReplayLastWrite(files, t, k);
  }

  /** A later event touching the output file of group g, a group the run got past whose pages
      no later reached, non-skipped group repeats, is a write of group g itself. */
  lemma OwnLastTouch(job: Job, i: nat, g: nat, k0: nat, k: nat)
    requires Passed(job, i, g) && g !in job.skip
    requires forall h :: g < h && Reached(job, i, h) && h !in job.skip ==> job.plan[h] != job.plan[g]
    requires k0 <= k < |RunFrom(job, i).trace| && RunFrom(job, i).trace[k0].group == g
    requires Touches(RunFrom(job, i).trace[k], OutputPath(job.imageDir, job.modelKey, job.plan[g]))
    ensures RunFrom(job, i).trace[k].group == g && RunFrom(job, i).trace[k].Wrote?
  {
    var t := RunFrom(job, i).trace;
    TraceGroups(job, i);
    assert g <= t[k].group;
    TouchFits(job, i, OutputPath(job.imageDir, job.modelKey, job.plan[g]), k);
    OutputPathInjective(job.imageDir, job.modelKey, job.plan[t[k].group], job.plan[g]);
    TruncationEndsRun(job, i);
  }

  /** An event of a run that writes or truncates p belongs to a group whose output file is p. */
  lemma TouchFits(job: Job, i: nat, p: string, k: nat)
    requires k < |RunFrom(job, i).trace| && Touches(RunFrom(job, i).trace[k], p)
    ensures RunFrom(job, i).trace[k].group < |job.plan|
    ensures p == OutputPath(job.imageDir, job.modelKey, job.plan[RunFrom(job, i).trace[k].group])
    ensures RunFrom(job, i).trace[k].group !in job.skip
    ensures RunFrom(job, i).trace[k].Wrote? ==>
      job.replies(RunFrom(job, i).trace[k].group) == Transcript(RunFrom(job, i).trace[k].text)
  {
    EventsFit(job, i);
    assert EventFits(job, RunFrom(job, i).trace[k]);
  }

  /** When writing a reply without text raised, open(path, 'w') had already emptied the
      group's output file, and the run leaves it empty. */
  lemma TruncatedFileEmpty(job: Job, i: nat, files: map<string, string>)
    requires RunFrom(job, i).status.Aborted? && RunFrom(job, i).status.failure == WriteRaised
    ensures RunFrom(job, i).status.group < |job.plan|
    ensures job.replies(RunFrom(job, i).status.group) == NoText
    ensures OutputPath(job.imageDir, job.modelKey, job.plan[RunFrom(job, i).status.group]) in Replay(files, RunFrom(job, i).trace)
    ensures Replay(files, RunFrom(job, i).trace)[OutputPath(job.imageDir, job.modelKey, job.plan[RunFrom(job, i).status.group])] == ""
  {
    var t := RunFrom(job, i).trace;
    RunFromIsRunOf(job, i);
    StepsShaped(job);
    RunOfEndsTruncated(Steps(job), job.skip, i);
    EventsFit(job, i);
    assert EventFits(job, t[|t| - 1]);
  }
}

/**
 * The group loop seen as a fold over the outcomes of its groups, one per group in plan
 * order: the run goes on through Continue outcomes and stops at the first Stop. What a trace
 * looks like depends only on the shape of each group's outcome, so the facts about traces
 * are proved here once, for any sequence of outcomes of that shape.
 */
module Traces {
  import opened BatchRunner

  /** The run over the outcomes of the groups, from group i on. This is the fold of
      BatchRunner.RunFrom with the outcomes given as a list instead of computed by Step: the
      facts below about the order of events hold for any outcomes of the shapes the loop body
      produces, and BatchProperties carries them over to RunFrom (RunFromIsRunOf). */
  function RunOf(steps: seq<Outcome>, i: nat): Run
    decreases |steps| - i
  {
    if i >= |steps| then Run(Finished, [])
    else
      match steps[i]
      case Stop(failure, events) => Run(Aborted(i, failure), events)
      case Continue(events) =>
        var rest := RunOf(steps, i + 1);
        Run(rest.status, events + rest.trace)
  }

  /** The forms one group's outcome takes: a skipped group only logs its skip; a group that
      goes on is requested, written and slept on; a group that stops for a missing image does
      nothing, one that stops on the reply has been requested, and one whose write raised has
      been requested and then truncated. Every event is tagged with the group. */
  predicate Shaped(o: Outcome, g: nat, skip: set<int>)
  {
    match o
    case Continue(ev) =>
      if g in skip then ev == [Skipped(g)]
      else
        && |ev| == 3 && ev[0].Requested? && ev[1].Wrote? && ev[2] == Slept(g, Cooldown)
        && ev[0].group == g && ev[1].group == g
    case Stop(failure, ev) =>
      && g !in skip
      && (match failure
          case MissingImage(_) => ev == []
          case WriteRaised =>
            |ev| == 2 && ev[0].Requested? && ev[1].Truncated? && ev[0].group == g && ev[1].group == g
          case _ => |ev| == 1 && ev[0].Requested? && ev[0].group == g)
  }

  predicate AllShaped(steps: seq<Outcome>, skip: set<int>)
  {
    forall g :: 0 <= g < |steps| ==> Shaped(steps[g], g, skip)
  }

  /** Group g, at or after i, is one the run from i got past. */
  predicate PassedOf(steps: seq<Outcome>, i: nat, g: nat)
  {
    i <= g < |steps| && (RunOf(steps, i).status.Finished? || g < RunOf(steps, i).status.group)
  }

  /** Every event of t belongs to a group in [lo, hi). */
  predicate InGroups(t: seq<Event>, lo: int, hi: int)
  {
    forall k :: 0 <= k < |t| ==> lo <= t[k].group < hi
  }

  /** The groups of t never go back. */
  predicate InOrder(t: seq<Event>)
  {
    forall a, b :: 0 <= a < b < |t| ==> t[a].group <= t[b].group
  }

  /** The events of t that belong to skipped groups are exactly its Skipped events. */
  predicate SkipsOnly(t: seq<Event>, skip: set<int>)
  {
    forall k :: 0 <= k < |t| ==> (t[k].group in skip <==> t[k].Skipped?)
  }

  /** Each write in t is followed at once by the cooldown sleep of its group, and each sleep
      comes right after a write of its group. */
  predicate CooldownFollows(t: seq<Event>)
  {
    && (forall k :: 0 <= k < |t| && t[k].Wrote? ==> k < |t| - 1 && t[k + 1] == Slept(t[k].group, Cooldown))
    && (forall k :: 0 <= k < |t| && t[k].Slept? ==> 0 < k && t[k - 1].Wrote? && t[k - 1].group == t[k].group)
  }

  /** Each write and each truncation in t comes right after the request of its group. */
  predicate AnsweredRequests(t: seq<Event>)
  {
    forall k :: 0 <= k < |t| && (t[k].Wrote? || t[k].Truncated?) ==>
      0 < k && t[k - 1].Requested? && t[k - 1].group == t[k].group
  }

  lemma GroupsAppend(a: seq<Event>, b: seq<Event>, g: nat, hi: int)
    requires g < hi && InGroups(a, g, g + 1) && InGroups(b, g + 1, hi) && InOrder(b)
    ensures InGroups(a + b, g, hi) && InOrder(a + b)
  {
    var t := a + b;
    assert forall k :: |a| <= k < |t| ==> t[k] == b[k - |a|];
    forall x, y | 0 <= x < y < |t| ensures t[x].group <= t[y].group {
      if y < |a| {
        assert t[x] == a[x] && t[y] == a[y];
      } else if x < |a| {
        assert t[x] == a[x];
      }
    }
  }

  lemma SkipsAppend(a: seq<Event>, b: seq<Event>, skip: set<int>)
    requires SkipsOnly(a, skip) && SkipsOnly(b, skip)
    ensures SkipsOnly(a + b, skip)
  {
    var t := a + b;
    assert forall k :: |a| <= k < |t| ==> t[k] == b[k - |a|];
  }

  lemma CooldownAppend(a: seq<Event>, b: seq<Event>)
    requires CooldownFollows(a) && CooldownFollows(b)
    requires a != [] ==> !a[|a| - 1].Wrote?
    ensures CooldownFollows(a + b)
  {
    var t := a + b;
    forall k | 0 <= k < |t| && t[k].Slept?
      ensures 0 < k && t[k - 1].Wrote? && t[k - 1].group == t[k].group
    {
      if k >= |a| {
        assert t[k] == b[k - |a|];
        assert k > |a|;
        assert t[k - 1] == b[k - 1 - |a|];
      } else {
        assert t[k] == a[k];
        assert t[k - 1] == a[k - 1];
      }
    }
    forall k | 0 <= k < |t| && t[k].Wrote?
      ensures k < |t| - 1 && t[k + 1] == Slept(t[k].group, Cooldown)
    {
      if k >= |a| {
        assert t[k] == b[k - |a|];
        assert t[k + 1] == b[k + 1 - |a|];
      } else {
        assert t[k] == a[k];
        assert k < |a| - 1;
        assert t[k + 1] == a[k + 1];
      }
    }
  }

  lemma AnsweredAppend(a: seq<Event>, b: seq<Event>)
    requires AnsweredRequests(a) && AnsweredRequests(b)
    ensures AnsweredRequests(a + b)
  {
    var t := a + b;
    forall k | 0 <= k < |t| && (t[k].Wrote? || t[k].Truncated?)
      ensures 0 < k && t[k - 1].Requested? && t[k - 1].group == t[k].group
    {
      if k >= |a| {
        assert t[k] == b[k - |a|];
        assert k > |a|;
        assert t[k - 1] == b[k - 1 - |a|];
      } else {
        assert t[k] == a[k];
        assert t[k - 1] == a[k - 1];
      }
    }
  }

  /** The run finishes exactly when every outcome from i on goes on; when it stops, it stops
      at the first outcome that does not, for that outcome's failure. */
  lemma {:induction false} RunOfStatus(steps: seq<Outcome>, i: nat)
    ensures RunOf(steps, i).status == Finished <==> forall g :: i <= g < |steps| ==> steps[g].Continue?
    ensures RunOf(steps, i).status.Aborted? ==>
      && i <= RunOf(steps, i).status.group < |steps|
      && steps[RunOf(steps, i).status.group].Stop?
      && steps[RunOf(steps, i).status.group].failure == RunOf(steps, i).status.failure
      && forall g :: i <= g < RunOf(steps, i).status.group ==> steps[g].Continue?
    decreases |steps| - i
  {
    if i < |steps| {
      RunOfStatus(steps, i + 1);
    }
  }

  /** The groups of the trace run from i upwards in plan order, and none comes after the
      group the run stopped at. */
  lemma {:induction false} RunOfGroups(steps: seq<Outcome>, skip: set<int>, i: nat)
    requires AllShaped(steps, skip)
    ensures InGroups(RunOf(steps, i).trace, i, |steps|) && InOrder(RunOf(steps, i).trace)
    ensures RunOf(steps, i).status.Aborted? ==>
      InGroups(RunOf(steps, i).trace, i, RunOf(steps, i).status.group + 1)
    decreases |steps| - i
  {
    if i < |steps| {
      var ev := steps[i].events;
      assert Shaped(steps[i], i, skip);
      assert InGroups(ev, i, i + 1);
      if steps[i].Continue? {
        RunOfGroups(steps, skip, i + 1);
        RunOfStatus(steps, i + 1);
        var rest := RunOf(steps, i + 1);
        GroupsAppend(ev, rest.trace, i, |steps|);
        if rest.status.Aborted? {
          GroupsAppend(ev, rest.trace, i, rest.status.group + 1);
        }
      }
    }
  }

  /** Every group the run got past went on, and all its events are in the trace. */
  lemma {:induction false} RunOfPassedEvents(steps: seq<Outcome>, i: nat)
    ensures forall g: nat :: PassedOf(steps, i, g) ==> steps[g].Continue?
    ensures forall g: nat, k :: PassedOf(steps, i, g) && 0 <= k < |steps[g].events| ==>
      steps[g].events[k] in RunOf(steps, i).trace
    decreases |steps| - i
  {
    RunOfStatus(steps, i);
    if i < |steps| && steps[i].Continue? {
      RunOfPassedEvents(steps, i + 1);
      var ev, rest := steps[i].events, RunOf(steps, i + 1);
      forall g: nat, k | PassedOf(steps, i, g) && 0 <= k < |steps[g].events|
        ensures steps[g].events[k] in ev + rest.trace
      {
        if g == i {
          assert (ev + rest.trace)[k] == ev[k];
        } else {
          assert PassedOf(steps, i + 1, g);
        }
      }
    }
  }

  /** The events of skipped groups are exactly the Skipped events. */
  lemma {:induction false} RunOfSkips(steps: seq<Outcome>, skip: set<int>, i: nat)
    requires AllShaped(steps, skip)
    ensures SkipsOnly(RunOf(steps, i).trace, skip)
    decreases |steps| - i
  {
    if i < |steps| {
      var ev := steps[i].events;
      assert Shaped(steps[i], i, skip);
      assert SkipsOnly(ev, skip);
      if steps[i].Continue? {
        RunOfSkips(steps, skip, i + 1);
        SkipsAppend(ev, RunOf(steps, i + 1).trace, skip);
      }
    }
  }

  /** Every write is followed by its cooldown sleep and every sleep follows a write. */
  lemma {:induction false} RunOfCooldown(steps: seq<Outcome>, skip: set<int>, i: nat)
    requires AllShaped(steps, skip)
    ensures CooldownFollows(RunOf(steps, i).trace)
    decreases |steps| - i
  {
    if i < |steps| {
      var ev := steps[i].events;
      assert Shaped(steps[i], i, skip);
      assert CooldownFollows(ev);
      if steps[i].Continue? {
        RunOfCooldown(steps, skip, i + 1);
        CooldownAppend(ev, RunOf(steps, i + 1).trace);
      }
    }
  }

  /** Every write and truncation follows the request of its group. */
  lemma {:induction false} RunOfAnswered(steps: seq<Outcome>, skip: set<int>, i: nat)
    requires AllShaped(steps, skip)
    ensures AnsweredRequests(RunOf(steps, i).trace)
    decreases |steps| - i
  {
    if i < |steps| {
      var ev := steps[i].events;
      assert Shaped(steps[i], i, skip);
      assert AnsweredRequests(ev);
      if steps[i].Continue? {
        RunOfAnswered(steps, skip, i + 1);
        AnsweredAppend(ev, RunOf(steps, i + 1).trace);
      }
    }
  }

  /** A truncation is the last event, and the run stopped at its group because the write
      raised. */
  lemma {:induction false} RunOfTruncation(steps: seq<Outcome>, skip: set<int>, i: nat)
    requires AllShaped(steps, skip)
    ensures forall k :: 0 <= k < |RunOf(steps, i).trace| && RunOf(steps, i).trace[k].Truncated? ==>
      && k == |RunOf(steps, i).trace| - 1
      && RunOf(steps, i).status == Aborted(RunOf(steps, i).trace[k].group, WriteRaised)
    decreases |steps| - i
  {
    if i < |steps| {
      var ev := steps[i].events;
      assert Shaped(steps[i], i, skip);
      if steps[i].Continue? {
        RunOfTruncation(steps, skip, i + 1);
        var rest := RunOf(steps, i + 1);
        var t := ev + rest.trace;
        assert forall k :: 0 <= k < |ev| ==> !ev[k].Truncated?;
        assert forall k :: 0 <= k < |ev| ==> t[k] == ev[k];
        assert forall k :: |ev| <= k < |t| ==> t[k] == rest.trace[k - |ev|];
      } else if steps[i].failure.WriteRaised? {
        assert ev[1].group == i && !ev[0].Truncated?;
      }
    }
  }

  /** The group the run stopped at leaves no event when an image was missing, and otherwise
      only its request and, when the write raised, the truncation. */
  lemma {:induction false} RunOfFailingGroup(steps: seq<Outcome>, skip: set<int>, i: nat)
    requires AllShaped(steps, skip)
    ensures RunOf(steps, i).status.Aborted? ==>
      forall k :: 0 <= k < |RunOf(steps, i).trace| && RunOf(steps, i).trace[k].group == RunOf(steps, i).status.group ==>
        && !RunOf(steps, i).status.failure.MissingImage?
        && (|| RunOf(steps, i).trace[k].Requested?
            || (RunOf(steps, i).trace[k].Truncated? && RunOf(steps, i).status.failure == WriteRaised))
    decreases |steps| - i
  {
    if i < |steps| {
      var ev := steps[i].events;
      assert Shaped(steps[i], i, skip);
      if steps[i].Continue? {
        RunOfFailingGroup(steps, skip, i + 1);
        RunOfStatus(steps, i + 1);
        var rest := RunOf(steps, i + 1);
        var t := ev + rest.trace;
        assert forall k :: 0 <= k < |ev| ==> ev[k].group == i;
        assert forall k :: |ev| <= k < |t| ==> t[k] == rest.trace[k - |ev|];
        assert forall k :: 0 <= k < |ev| ==> t[k] == ev[k];
      }
    }
  }

  /** A run stopped because the write raised ends with the truncation of its group's file. */
  lemma {:induction false} RunOfEndsTruncated(steps: seq<Outcome>, skip: set<int>, i: nat)
    requires AllShaped(steps, skip)
    ensures RunOf(steps, i).status.Aborted? && RunOf(steps, i).status.failure == WriteRaised ==>
      && |RunOf(steps, i).trace| > 0
      && RunOf(steps, i).trace[|RunOf(steps, i).trace| - 1].Truncated?
      && RunOf(steps, i).trace[|RunOf(steps, i).trace| - 1].group == RunOf(steps, i).status.group
    decreases |steps| - i
  {
    if i < |steps| {
      assert Shaped(steps[i], i, skip);
      if steps[i].Continue? {
        RunOfEndsTruncated(steps, skip, i + 1);
        var rest := RunOf(steps, i + 1);
        if rest.trace != [] {
          assert (steps[i].events + rest.trace)[|steps[i].events + rest.trace| - 1] == rest.trace[|rest.trace| - 1];
        }
      }
    }
  }
}

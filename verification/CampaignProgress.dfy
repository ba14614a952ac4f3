/** A campaign that is not refused can be run to its end. */
module CampaignProgress {
  import opened Basics
  import opened Campaign
  import opened CampaignProofs

  lemma {:induction false} ReachesOn(w: World, from: Campaign, first: seq<Step>, mid: Campaign, second: seq<Step>,
                                     s: Campaign)
    requires Reaches(w, from, first, mid) && Reaches(w, mid, second, s)
    ensures Reaches(w, from, first + second, s)
    decreases |first|
  {
    if first == [] {
      assert first + second == second;
    } else {
      ReachesOn(w, Apply(w, from, first[0]), first[1..], mid, second, s);
      assert (first + second)[1..] == first[1..] + second;
    }
  }

  lemma OneStep(w: World, s: Campaign, step: Step)
    requires Enabled(w, s, step)
    ensures Reaches(w, s, [step], Apply(w, s, step))
  {
    assert [step][1..] == [];
  }

  /** What is left of a repair goes out in one write. */
  lemma RepairEnds(w: World, s: Campaign)
    requires s.proc.Repairing? && s.proc.rest != [] && s.manifest.Some?
    ensures Enabled(w, s, Repair(|s.proc.rest|))
    ensures var t := Apply(w, s, Repair(|s.proc.rest|));
            t == s.(proc := Ready(s.proc.done), manifest := Some(s.manifest.value + s.proc.rest))
  {
    assert s.proc.rest[..|s.proc.rest|] == s.proc.rest;
  }

  /** A resume that is not refused gets ready for the next sample, with everything it loaded. */
  lemma ResumeGetsReady(w: World, s: Campaign) returns (steps: seq<Step>, t: Campaign)
    requires Lawful(w) && Reachable(w, s) && !Running(s.proc) && !Boots(w, s).proc.Refused?
    ensures Reaches(w, s, steps, t) && t.proc == Ready(DoneOf(Boots(w, s).log)) && t.log == Boots(w, s).log
  {
    ResumeReachesManifest(w, s);
    var b := Boots(w, s);
    OneStep(w, s, Boot);
    var first, c := ReconcileSteps(w, b);
    ReachesOn(w, s, [Boot], b, first, c);
    var second;
    second, t := RepairSteps(w, c, DoneOf(b.log));
    ReachesOn(w, s, [Boot] + first, c, second, t);
    steps := [Boot] + first + second;
  }

  lemma ReconcileSteps(w: World, b: Campaign) returns (steps: seq<Step>, c: Campaign)
    requires b.proc.Loaded?
    ensures Reaches(w, b, steps, c) && c == Reconciled(w, b) && c.log == b.log
    ensures c.proc.Repairing? ==> c.proc.rest != []
  {
    OneStep(w, b, Reconcile);
    steps, c := [Reconcile], Reconciled(w, b);
  }

  lemma RepairSteps(w: World, c: Campaign, done: seq<Event>) returns (steps: seq<Step>, t: Campaign)
    requires Catching(w, c, done) && (c.proc.Repairing? ==> c.proc.rest != [])
    ensures Reaches(w, c, steps, t) && t.proc == Ready(done) && t.log == c.log
  {
    if c.proc.Ready? {
      steps, t := [], c;
    } else {
      RepairEnds(w, c);
      OneStep(w, c, Repair(|c.proc.rest|));
      steps, t := [Repair(|c.proc.rest|)], Apply(w, c, Repair(|c.proc.rest|));
    }
  }

  /** A record that goes out in one write. */
  lemma RecordEnds(w: World, s: Campaign, step: Step, e: Event)
    requires (step == Start(e) || step == Complete(e)) && Enabled(w, s, step)
    ensures var t := Apply(w, s, step);
      && Enabled(w, t, Write(|Record(w, e)|))
      && Apply(w, t, Write(|Record(w, e)|)) ==
         s.(ledger := s.ledger + Record(w, e), proc := AfterRecord(w, s.proc.done, e), log := s.log + [e],
            pending := None, tail := [])
  {
    var t := Apply(w, s, step);
    assert t.proc.rest == Record(w, e) && Record(w, e) != [];
    assert Record(w, e)[..|Record(w, e)|] == Record(w, e) && Record(w, e)[|Record(w, e)|..] == [];
  }

  lemma RecordSteps(w: World, s: Campaign, step: Step, e: Event) returns (steps: seq<Step>, t: Campaign)
    requires (step == Start(e) || step == Complete(e)) && Enabled(w, s, step)
    ensures Reaches(w, s, steps, t)
    ensures t == s.(ledger := s.ledger + Record(w, e), proc := AfterRecord(w, s.proc.done, e), log := s.log + [e],
                    pending := None, tail := [])
  {
    RecordEnds(w, s, step, e);
    var mid := Apply(w, s, step);
    OneStep(w, s, step);
    OneStep(w, mid, Write(|Record(w, e)|));
    t := Apply(w, mid, Write(|Record(w, e)|));
    ReachesOn(w, s, [step], mid, [Write(|Record(w, e)|)], t);
    steps := [step] + [Write(|Record(w, e)|)];
  }

  /** The newest row goes out in one write. */
  lemma RowSteps(w: World, s: Campaign) returns (steps: seq<Step>, t: Campaign)
    requires s.proc.Adding? && s.proc.rest != [] && s.manifest.Some?
    ensures Reaches(w, s, steps, t)
    ensures t == s.(proc := Ready(s.proc.done), manifest := Some(s.manifest.value + s.proc.rest))
  {
    var k := |s.proc.rest|;
    assert s.proc.rest[..k] == s.proc.rest;
    OneStep(w, s, Add(k));
    steps, t := [Add(k)], Apply(w, s, Add(k));
  }

  /** From the wait for one sample to the wait for the next: both records are in the ledger, and its row, if any, is
      in the manifest. */
  lemma SampleCompletes(w: World, s: Campaign, started: Event, completed: Event)
    returns (steps: seq<Step>, t: Campaign)
    requires s.proc.Ready? && s.manifest.Some? && IsStart(w, started, |s.proc.done|)
    requires IsDone(w, completed, |s.proc.done|) && forall d <- s.proc.done :: Digest(d) != Digest(completed)
    ensures Reaches(w, s, steps, t) && t.proc == Ready(s.proc.done + [completed])
    ensures t.log == s.log + [started] + [completed]
    ensures t.ledger == s.ledger + Record(w, started) + Record(w, completed)
    ensures t.manifest == Some(s.manifest.value + w.row(completed))
  {
    var first, a := RecordSteps(w, s, Start(started), started);
    var second, b := RecordSteps(w, a, Complete(completed), completed);
    ReachesOn(w, s, first, a, second, b);
    if w.row(completed) == [] {
      steps, t := first + second, b;
      assert s.manifest.value + [] == s.manifest.value;
    } else {
      var third;
      third, t := RowSteps(w, b);
      ReachesOn(w, s, first + second, b, third, t);
      steps := first + second + third;
    }
  }

  /** A start and a completion for every sample, each with a capture of its own. */
  ghost predicate Supplied(w: World, starts: seq<Event>, dones: seq<Event>, already: seq<Event>) {
    && |starts| == |dones| == |w.samples| && |already| <= |w.samples|
    && (forall i :: 0 <= i < |w.samples| ==> IsStart(w, starts[i], i) && IsDone(w, dones[i], i))
    && (forall i, j :: 0 <= i < j < |w.samples| ==> Digest(dones[i]) != Digest(dones[j]))
    && (forall d <- already, i :: |already| <= i < |w.samples| ==> Digest(d) != Digest(dones[i]))
  }

  lemma SuppliedNext(w: World, starts: seq<Event>, dones: seq<Event>, already: seq<Event>)
    requires Supplied(w, starts, dones, already) && |already| < |w.samples|
    ensures Supplied(w, starts, dones, already + [dones[|already|]])
  {
  }

  lemma {:induction false} RunsToTheEnd(w: World, s: Campaign, starts: seq<Event>, dones: seq<Event>)
    returns (steps: seq<Step>, t: Campaign)
    requires s.proc.Ready? && s.manifest.Some? && Supplied(w, starts, dones, s.proc.done)
    ensures Reaches(w, s, steps, t) && t.proc == Ready(s.proc.done + dones[|s.proc.done|..])
    decreases |w.samples| - |s.proc.done|
  {
    var n := |s.proc.done|;
    if n == |w.samples| {
      steps, t := [], s;
      assert s.proc.done + dones[n..] == s.proc.done;
    } else {
      var first, a := SampleCompletes(w, s, starts[n], dones[n]);
      SuppliedNext(w, starts, dones, s.proc.done);
      var rest;
      rest, t := RunsToTheEnd(w, a, starts, dones);
      ReachesOn(w, s, first, a, rest, t);
      steps := first + rest;
      assert s.proc.done + [dones[n]] + dones[n + 1..] == s.proc.done + dones[n..];
    }
  }

  lemma {:induction false} ReachableOn(w: World, s: Campaign, steps: seq<Step>, t: Campaign)
    requires Reachable(w, s) && Reaches(w, s, steps, t)
    ensures Reachable(w, t)
  {
    var before :| Reaches(w, Init(), before, s);
    ReachesOn(w, Init(), before, s, steps, t);
  }

  /** From every crash after which a resume is not refused, the rest of the schedule can be run: then the manifest is
      the full rendering of all samples, those from before the crash included. */
  lemma CampaignCanFinish(w: World, s: Campaign, starts: seq<Event>, dones: seq<Event>)
    returns (steps: seq<Step>, t: Campaign)
    requires Lawful(w) && Reachable(w, s) && !Running(s.proc) && !Boots(w, s).proc.Refused?
    requires Supplied(w, starts, dones, DoneOf(Boots(w, s).log))
    ensures var loaded := DoneOf(Boots(w, s).log); var all := loaded + dones[|loaded|..];
      && Reaches(w, s, steps, t) && t.proc == Ready(all) && |all| == |w.samples|
      && t.manifest == Some(Render(w, Completions(all))) && Load(w, t.ledger) == Some(all)
  {
    var first, a := ResumeGetsReady(w, s);
    ReachableOn(w, s, first, a);
    ManifestMatchesLedger(w, a);
    var rest;
    rest, t := RunsToTheEnd(w, a, starts, dones);
    ReachesOn(w, s, first, a, rest, t);
    steps := first + rest;
    ReachableOn(w, s, steps, t);
    ManifestMatchesLedger(w, t);
  }
}

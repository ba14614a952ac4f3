/** Crash consistency of the ledger and the manifest. */
module CampaignProofs {
  import opened Basics
  import opened Campaign

  // ---- recovery of the ledger ----

  lemma PrintAppend(w: World, es: seq<Event>, e: Event)
    ensures Print(w, es + [e]) == Print(w, es) + Record(w, e)
  {
    assert (es + [e])[..|es|] == es;
  }

  lemma {:induction false} PrintPrepend(w: World, e: Event, es: seq<Event>)
    ensures Print(w, [e] + es) == Record(w, e) + Print(w, es)
  {
    if es == [] {
      assert [e] + es == [] + [e];
      PrintAppend(w, [], e);
    } else {
      var init, last := es[..|es| - 1], es[|es| - 1];
      PrintPrepend(w, e, init);
      assert [e] + es == ([e] + init) + [last];
      PrintAppend(w, [e] + init, last);
      Associate(Record(w, e), Print(w, init), Record(w, last));
    }
  }

  lemma Associate(a: Bytes, b: Bytes, c: Bytes)
    ensures (a + b) + c == a + (b + c)
  {
  }

  lemma {:induction false} BoundaryBehind(c: Bytes, t: Bytes)
    requires c == [] || c[|c| - 1] == NL
    requires !Breaks(t)
    ensures Boundary(c + t) == |c|
  {
    if t == [] {
      assert c + t == c;
    } else {
      var init := t[..|t| - 1];
      assert forall i :: 0 <= i < |init| ==> init[i] == t[i];
      BoundaryBehind(c, init);
      assert (c + t)[..|c + t| - 1] == c + init;
      assert (c + t)[|c + t| - 1] == t[|t| - 1];
    }
  }

  /** Recovery looks at the last, unterminated line only. */
  lemma RecoverTail(w: World, c: Bytes, t: Bytes)
    requires (c == [] || c[|c| - 1] == NL) && t != [] && !Breaks(t)
    ensures Recover(w, c + t) == if w.decode(t).Malformed? then c else c + t + [NL]
  {
    BoundaryBehind(c, t);
    assert (c + t)[|c|..] == t && (c + t)[..|c|] == c;
    assert (c + t)[|c + t| - 1] == t[|t| - 1];
  }

  /** What a crash inside an append leaves is cut back to the records before it, or completed. */
  lemma RecoverAfterCrash(w: World, es: seq<Event>, e: Event, k: nat)
    requires Encodes(w, e) && k <= |w.encode(e)|
    ensures Recover(w, Print(w, es) + w.encode(e)[..k]) ==
            if k == |w.encode(e)| then Print(w, es + [e]) else Print(w, es)
  {
    var c, b := Print(w, es), w.encode(e);
    PrintEnds(w, es);
    if k == 0 {
      assert c + b[..0] == c;
    } else {
      assert forall i :: 0 <= i < k ==> b[..k][i] == b[i];
      RecoverTail(w, c, b[..k]);
      if k == |b| {
        assert b[..k] == b;
        PrintAppend(w, es, e);
        assert c + b + [NL] == c + (b + [NL]);
      }
    }
  }

  lemma PrintEnds(w: World, es: seq<Event>)
    ensures Print(w, es) == [] || Print(w, es)[|Print(w, es)| - 1] == NL
  {
  }

  lemma RecoverComplete(w: World, es: seq<Event>)
    ensures Recover(w, Print(w, es)) == Print(w, es)
  {
    PrintEnds(w, es);
  }

  lemma {:induction false} FirstBreakIs(x: Bytes, rest: Bytes)
    requires !Breaks(x)
    ensures FirstBreak(x + [NL] + rest) == |x|
  {
    if x == [] {
    } else {
      assert (x + [NL] + rest)[1..] == x[1..] + [NL] + rest;
      assert forall i :: 0 <= i < |x| - 1 ==> x[1..][i] == x[i + 1];
      FirstBreakIs(x[1..], rest);
    }
  }

  lemma LinesPrepend(x: Bytes, rest: Bytes)
    requires !Breaks(x)
    ensures Lines(x + [NL] + rest) == [x] + Lines(rest)
  {
    var c := x + [NL] + rest;
    FirstBreakIs(x, rest);
    assert c[..|x|] == x && c[|x| + 1..] == rest;
  }

  lemma {:induction false} LedgerReadsBack(w: World, es: seq<Event>)
    requires Lawful(w)
    ensures EventsOf(w, Lines(Print(w, es))) == Some(es)
  {
    if es == [] {
    } else {
      var e, rest := es[0], es[1..];
      LedgerReadsBack(w, rest);
      PrintPrepend(w, e, rest);
      assert es == [e] + rest;
      assert Encodes(w, e);
      LinesPrepend(w.encode(e), Print(w, rest));
    }
  }

  // ---- what the log says ----

  lemma PairsDependOnPrefix(w: World, es: seq<Event>, more: seq<Event>, n: nat)
    requires 2 * n <= |es|
    ensures PairsUpTo(w, es + more, n) <==> PairsUpTo(w, es, n)
  {
    var all := es + more;
    forall i | 0 <= i < n ensures PairAt(w, all, i) <==> PairAt(w, es, i) {
      assert forall j :: 0 <= j <= i ==> DoneAt(all, j) == DoneAt(es, j);
      assert all[2 * i] == es[2 * i];
    }
  }

  /** A settled log grows by a start; an open attempt by a failure or its completion. */
  lemma HistoryGrows(w: World, log: seq<Event>, e: Event)
    requires MayFollow(w, log, e)
    ensures if e.Started? then Attempting(w, log + [e])
            else if e.Failed? then Abandoned(w, log + [e]) && !Paired(w, log + [e])
            else Paired(w, log + [e])
  {
    var next := log + [e];
    assert next[..|log|] == log;
    PairsDependOnPrefix(w, log, [e], |log| / 2);
    if e.Completed? {
      var i := |log| / 2;
      assert next[2 * i] == log[|log| - 1] && DoneAt(next, i) == e;
      assert NewDigest(next, i, e) by {
        forall j | 0 <= j < i ensures Digest(DoneAt(next, j)) != Digest(e) { assert DoneAt(next, j) == DoneAt(log, j); }
      }
      assert PairAt(w, next, i);
    } else if e.Failed? {
      AbandonedIsUnpaired(w, next);
    }
  }

  lemma PairFacts(w: World, es: seq<Event>, n: nat, k: nat)
    requires PairsUpTo(w, es, n) && k < n
    ensures IsStart(w, es[2 * k], k) && IsDone(w, es[2 * k + 1], k)
  {
    assert PairAt(w, es, k);
  }

  lemma AbandonedIsUnpaired(w: World, es: seq<Event>)
    requires es != [] && es[|es| - 1].Failed?
    ensures !Paired(w, es)
  {
    if Paired(w, es) { PairFacts(w, es, |es| / 2, |es| / 2 - 1); }
  }

  lemma DoneAppend(es: seq<Event>, e: Event)
    ensures DoneOf(es + [e]) == if e.Completed? then DoneOf(es) + [e] else DoneOf(es)
  {
    assert (es + [e])[..|es|] == es;
  }

  /** One more pair is one more completion. */
  lemma DoneOfPair(es: seq<Event>, n: nat)
    requires 2 * n + 1 < |es| && es[2 * n].Started? && es[2 * n + 1].Completed?
    ensures DoneOf(es[..2 * (n + 1)]) == DoneOf(es[..2 * n]) + [DoneAt(es, n)]
  {
    var start, finish := es[2 * n], es[2 * n + 1];
    assert es[..2 * n + 1] == es[..2 * n] + [start];
    assert es[..2 * (n + 1)] == es[..2 * n + 1] + [finish];
    DoneAppend(es[..2 * n], start);
    DoneAppend(es[..2 * n + 1], finish);
  }

  lemma {:induction false} DoneOfPairs(w: World, es: seq<Event>, n: nat)
    requires PairsUpTo(w, es, n)
    ensures |DoneOf(es[..2 * n])| == n
    ensures forall i :: 0 <= i < n ==> DoneOf(es[..2 * n])[i] == DoneAt(es, i)
  {
    if n == 0 {
    } else {
      DoneOfPairs(w, es, n - 1);
      PairFacts(w, es, n, n - 1);
      DoneOfPair(es, n - 1);
    }
  }

  /** These are completions of the first samples of the schedule. */
  predicate Along(w: World, done: seq<Event>) {
    |done| <= |w.samples| && forall i :: 0 <= i < |done| ==> IsDone(w, done[i], i)
  }

  lemma DoneIsAlong(w: World, log: seq<Event>)
    requires Paired(w, log) || Attempting(w, log)
    ensures Along(w, DoneOf(log)) && |DoneOf(log)| == |log| / 2
    ensures forall i :: 0 <= i < |log| / 2 ==> DoneOf(log)[i] == DoneAt(log, i)
  {
    var n := |log| / 2;
    DoneOfPairs(w, log, n);
    if |log| % 2 == 0 {
      assert log[..2 * n] == log;
    } else {
      assert log == log[..2 * n] + [log[|log| - 1]];
      DoneAppend(log[..2 * n], log[|log| - 1]);
    }
    forall i | 0 <= i < n ensures IsDone(w, DoneOf(log)[i], i) { assert PairAt(w, log, i); }
    if n > 0 { assert PairAt(w, log, n - 1); }
  }

  // ---- the manifest ----

  lemma {:induction false} CompletionsAlong(w: World, done: seq<Event>)
    requires Distinct(w) && Along(w, done)
    ensures forall i :: 0 <= i < |w.samples| ==> (w.samples[i] in Completions(done) <==> i < |done|)
    ensures forall i :: 0 <= i < |done| ==>
              w.samples[i] in Completions(done) && Completions(done)[w.samples[i]] == done[i]
  {
    if done == [] {
    } else {
      var init, last := done[..|done| - 1], done[|done| - 1];
      CompletionsAlong(w, init);
      assert IsDone(w, last, |init|);
    }
  }

  lemma RowsStep(w: World, k: nat, completed: map<Id, Event>)
    requires 0 < k <= |w.samples|
    ensures var id := w.samples[k - 1];
            w.header + RenderRows(w, w.samples[..k], completed) ==
            (w.header + RenderRows(w, w.samples[..k - 1], completed)) +
            (if id in completed then w.row(completed[id]) else [])
  {
    assert w.samples[..k][..k - 1] == w.samples[..k - 1];
  }

  lemma {:induction false} RowsInOrder(w: World, done: seq<Event>, k: nat)
    requires Distinct(w) && Along(w, done) && k <= |w.samples|
    ensures w.header + RenderRows(w, w.samples[..k], Completions(done)) == Appended(w, done[..Min(k, |done|)])
  {
    if k == 0 {
    } else {
      RowsInOrder(w, done, k - 1);
      CompletionsAlong(w, done);
      RowsStep(w, k, Completions(done));
      if k <= |done| { AppendedNext(w, done, k); }
    }
  }

  lemma AppendedNext(w: World, done: seq<Event>, k: nat)
    requires 0 < k <= |done|
    ensures Appended(w, done[..k]) == Appended(w, done[..k - 1]) + w.row(done[k - 1])
  {
    assert done[..k][..k - 1] == done[..k - 1];
  }

  /** Appending row by row refines rendering the whole manifest. */
  lemma RenderIsAppended(w: World, done: seq<Event>)
    requires Distinct(w) && Along(w, done)
    ensures Render(w, Completions(done)) == Appended(w, done)
  {
    RowsInOrder(w, done, |w.samples|);
    assert w.samples[..|w.samples|] == w.samples;
    assert done[..|done|] == done;
  }

  lemma AppendedAppend(w: World, done: seq<Event>, e: Event)
    ensures Appended(w, done + [e]) == Appended(w, done) + w.row(e)
  {
    assert (done + [e])[..|done|] == done;
  }

  // ---- the steps ----

  lemma InitInv(w: World)
    ensures Inv(w, Init())
  {
  }

  /** What a process finds when it opens the ledger. */
  lemma OpenedInv(w: World, s: Campaign)
    requires Lawful(w) && LedgerInv(w, s.ledger, s.log, s.pending, s.tail) && ManifestInv(w, s.manifest, s.log)
    ensures var t := Opened(w, s);
            && LedgerInv(w, t.ledger, t.log, t.pending, t.tail) && ManifestInv(w, t.manifest, t.log)
            && t.ledger == Print(w, t.log)
  {
    var t := Opened(w, s);
    if s.pending.None? {
      RecoverComplete(w, s.log);
      assert Print(w, s.log) + [] == Print(w, s.log);
    } else {
      OpenedPending(w, s.log, s.pending.value, s.tail);
      ManifestGrows(w, s.manifest, s.log, s.pending.value);
    }
    assert t.ledger + [] == t.ledger;
  }

  lemma OpenedPending(w: World, log: seq<Event>, e: Event, tail: Bytes)
    requires Lawful(w) && MayFollow(w, log, e) && |tail| <= |w.encode(e)| && tail == w.encode(e)[..|tail|]
    ensures Recover(w, Print(w, log) + tail) == Print(w, if tail == w.encode(e) then log + [e] else log)
    ensures History(w, log + [e])
  {
    assert Encodes(w, e);
    RecoverAfterCrash(w, log, e, |tail|);
    HistoryGrows(w, log, e);
  }

  lemma ManifestGrows(w: World, manifest: Option<Bytes>, log: seq<Event>, e: Event)
    requires ManifestInv(w, manifest, log)
    ensures ManifestInv(w, manifest, log + [e])
  {
    DoneAppend(log, e);
    if e.Completed? { AppendedAppend(w, DoneOf(log), e); }
  }

  /** Loading accepts exactly the settled logs, and loses no completion. */
  lemma LoadIsExact(w: World, log: seq<Event>)
    requires Lawful(w)
    ensures Load(w, Print(w, log)) == if Paired(w, log) then Some(DoneOf(log)) else None
  {
    LedgerReadsBack(w, log);
  }

  lemma BootInv(w: World, s: Campaign)
    requires Lawful(w) && Inv(w, s) && Enabled(w, s, Boot)
    ensures Inv(w, Boots(w, s))
  {
    OpenedInv(w, s);
    LoadIsExact(w, Opened(w, s).log);
  }

  lemma ReconcileInv(w: World, s: Campaign)
    requires Lawful(w) && Inv(w, s) && s.proc.Loaded?
    ensures Inv(w, Reconciled(w, s)) && !Reconciled(w, s).proc.Refused?
  {
    DoneIsAlong(w, s.log);
    RenderIsAppended(w, s.proc.done);
    var expected := Appended(w, s.proc.done);
    if s.manifest.Some? { assert s.manifest.value + expected[|s.manifest.value|..] == expected; }
  }

  lemma ExtendInv(w: World, s: Campaign, k: nat)
    requires Inv(w, s) && (Enabled(w, s, Repair(k)) || Enabled(w, s, Add(k)))
    ensures Inv(w, Apply(w, s, if s.proc.Repairing? then Repair(k) else Add(k)))
  {
    var m, rest := s.manifest.value, s.proc.rest;
    assert rest == rest[..k] + rest[k..];
    assert m + rest == (m + rest[..k]) + rest[k..];
    if k == |rest| { assert rest[..k] == rest; }
  }

  lemma LogsInv(w: World, s: Campaign, e: Event)
    requires Inv(w, s) && (s.proc.Ready? || s.proc.Capturing?) && MayFollow(w, s.log, e)
    ensures Inv(w, Logs(w, s, s.proc.done, e))
  {
    assert [] + Record(w, e) == Record(w, e);
  }

  lemma CompleteMayFollow(w: World, s: Campaign, e: Event)
    requires Inv(w, s) && Enabled(w, s, Complete(e))
    ensures MayFollow(w, s.log, e)
  {
    DoneIsAlong(w, s.log);
    var i := |s.log| / 2;
    forall j | 0 <= j < i ensures Digest(DoneAt(s.log, j)) != Digest(e) {
      assert DoneOf(s.log)[j] == DoneAt(s.log, j);
    }
  }

  lemma WriteInv(w: World, s: Campaign, k: nat)
    requires Inv(w, s) && Enabled(w, s, Write(k))
    ensures Inv(w, Written(w, s, k))
  {
    var e, rest := s.proc.event, s.proc.rest;
    var chunk, left := rest[..k], rest[k..];
    assert rest == chunk + left;
    assert s.tail + rest == (s.tail + chunk) + left;
    assert s.ledger + chunk == Print(w, s.log) + (s.tail + chunk);
    if left != [] {
      assert (s.tail + chunk) == Record(w, e)[..|s.tail + chunk|];
    } else {
      assert s.tail + chunk == Record(w, e);
      RecordInv(w, s, e, s.ledger + chunk);
    }
  }

  lemma RecordInv(w: World, s: Campaign, e: Event, ledger: Bytes)
    requires MayFollow(w, s.log, e) && ledger == Print(w, s.log) + Record(w, e)
    requires s.manifest == Some(Appended(w, DoneOf(s.log)))
    ensures var t := s.(ledger := ledger, proc := AfterRecord(w, DoneOf(s.log), e), log := s.log + [e],
                        pending := None, tail := []);
            Inv(w, t)
  {
    PrintAppend(w, s.log, e);
    HistoryGrows(w, s.log, e);
    DoneAppend(s.log, e);
    assert ledger + [] == ledger;
    ManifestGrows(w, s.manifest, s.log, e);
    if e.Completed? { RowFollows(w, DoneOf(s.log), e); }
  }

  lemma RowFollows(w: World, done: seq<Event>, e: Event)
    ensures Appended(w, done + [e]) == Appended(w, done) + w.row(e)
    ensures w.row(e) == [] ==> Appended(w, done + [e]) == Appended(w, done)
  {
    AppendedAppend(w, done, e);
  }

  lemma StepInv(w: World, s: Campaign, step: Step)
    requires Lawful(w) && Inv(w, s) && Enabled(w, s, step)
    ensures Inv(w, Apply(w, s, step))
  {
    match step
    case Boot => BootInv(w, s);
    case Reconcile => ReconcileInv(w, s);
    case Repair(k) => ExtendInv(w, s, k);
    case Start(e) => DoneIsAlong(w, s.log); LogsInv(w, s, e);
    case Write(k) => WriteInv(w, s, k);
    case Fail(e) => LogsInv(w, s, e);
    case Complete(e) => CompleteMayFollow(w, s, e); LogsInv(w, s, e);
    case Add(k) => ExtendInv(w, s, k);
    case Crash =>
  }

  lemma {:induction false} RunInv(w: World, from: Campaign, steps: seq<Step>, s: Campaign)
    requires Lawful(w) && Inv(w, from) && Reaches(w, from, steps, s)
    ensures Inv(w, s)
    decreases |steps|
  {
    if steps == [] {
    } else {
      StepInv(w, from, steps[0]);
      RunInv(w, Apply(w, from, steps[0]), steps[1..], s);
    }
  }

  // ---- what every run guarantees ----

  ghost predicate Reachable(w: World, s: Campaign) { exists steps :: Reaches(w, Init(), steps, s) }

  lemma ReachableInv(w: World, s: Campaign)
    requires Lawful(w) && Reachable(w, s)
    ensures Inv(w, s)
  {
    InitInv(w);
    var steps :| Reaches(w, Init(), steps, s);
    RunInv(w, Init(), steps, s);
  }

  /** Wherever a crash cut the last append, a resume loads every durable completion, or refuses exactly because
      the last attempt is open or has failed. What it loads can be reconciled with the manifest. */
  lemma ResumeIsExact(w: World, s: Campaign)
    requires Lawful(w) && Reachable(w, s) && !Running(s.proc)
    ensures var t := Boots(w, s);
            t.ledger == Print(w, t.log) &&
            (t.proc == Loaded(DoneOf(t.log)) <==> Paired(w, t.log)) &&
            (t.proc.Refused? <==> Attempting(w, t.log) || Abandoned(w, t.log)) &&
            (t.proc.Loaded? ==> !Reconciled(w, t).proc.Refused?)
  {
    ReachableInv(w, s);
    BootInv(w, s);
    BootedIsExact(w, Boots(w, s));
  }

  lemma BootedIsExact(w: World, t: Campaign)
    requires Lawful(w) && Inv(w, t) && (t.proc.Loaded? || t.proc.Refused?)
    ensures t.ledger == Print(w, t.log)
    ensures t.proc == Loaded(DoneOf(t.log)) <==> Paired(w, t.log)
    ensures t.proc.Refused? <==> Attempting(w, t.log) || Abandoned(w, t.log)
    ensures t.proc.Loaded? ==> !Reconciled(w, t).proc.Refused?
  {
    assert Print(w, t.log) + [] == Print(w, t.log);
    if Abandoned(w, t.log) { AbandonedIsUnpaired(w, t.log); }
    if t.proc.Loaded? { ReconcileInv(w, t); }
  }

  /** Between samples the manifest is the full rendering of what a load of the ledger would return. */
  lemma ManifestMatchesLedger(w: World, s: Campaign)
    requires Lawful(w) && Reachable(w, s) && s.proc.Ready?
    ensures s.manifest == Some(Render(w, Completions(s.proc.done)))
    ensures Load(w, s.ledger) == Some(s.proc.done) && Recover(w, s.ledger) == s.ledger
    ensures |s.proc.done| <= |w.samples|
    ensures forall i :: 0 <= i < |s.proc.done| ==> IsDone(w, s.proc.done[i], i)
  {
    ReachableInv(w, s);
    DoneIsAlong(w, s.log);
    RenderIsAppended(w, s.proc.done);
    assert Print(w, s.log) + [] == Print(w, s.log);
    LoadIsExact(w, s.log);
    RecoverComplete(w, s.log);
  }

  /** The manifest is the full rendering of these samples, or lacks just the suffix that is being written. */
  predicate Catching(w: World, t: Campaign, done: seq<Event>) {
    var expected := Render(w, Completions(done));
    || (t.proc == Ready(done) && t.manifest == Some(expected))
    || (t.proc.Repairing? && t.proc.done == done && t.manifest.Some? && t.manifest.value + t.proc.rest == expected)
  }

  lemma LoadedCatchesUp(w: World, b: Campaign)
    requires Lawful(w) && Inv(w, b) && b.proc.Loaded?
    ensures Catching(w, Reconciled(w, b), DoneOf(b.log))
  {
    ReconcileInv(w, b);
    var expected := Render(w, Completions(b.proc.done));
    if b.manifest.Some? && b.manifest.value <= expected {
      assert b.manifest.value + expected[|b.manifest.value|..] == expected;
    }
  }

  /** Every resume that is not refused gets to the full rendering of the samples it loaded: it is there, or it is
      writing exactly what is missing, in however many writes. */
  lemma ResumeReachesManifest(w: World, s: Campaign)
    requires Lawful(w) && Reachable(w, s) && !Running(s.proc) && !Boots(w, s).proc.Refused?
    ensures Boots(w, s).proc.Loaded? && Boots(w, s).proc.done == DoneOf(Boots(w, s).log)
    ensures Catching(w, Reconciled(w, Boots(w, s)), DoneOf(Boots(w, s).log))
  {
    ReachableInv(w, s);
    BootInv(w, s);
    LoadedCatchesUp(w, Boots(w, s));
  }

  /** Each write of the missing suffix keeps it so, and the last one completes the manifest. */
  lemma RepairCatchesUp(w: World, t: Campaign, done: seq<Event>, k: nat)
    requires Catching(w, t, done) && Enabled(w, t, Repair(k))
    ensures Catching(w, Apply(w, t, Repair(k)), done)
    ensures k == |t.proc.rest| <==> Apply(w, t, Repair(k)).proc.Ready?
  {
    var m, rest := t.manifest.value, t.proc.rest;
    assert rest == rest[..k] + rest[k..];
    assert m + rest == (m + rest[..k]) + rest[k..];
    if k == |rest| { assert rest[..k] == rest; }
  }

  lemma {:induction false} LogOnlyGrows(w: World, from: Campaign, steps: seq<Step>, s: Campaign)
    requires Reaches(w, from, steps, s)
    ensures from.log <= s.log
    decreases |steps|
  {
    if steps == [] {
    } else {
      assert from.log <= Apply(w, from, steps[0]).log;
      LogOnlyGrows(w, Apply(w, from, steps[0]), steps[1..], s);
    }
  }

  lemma {:induction false} PrintOfPrefix(w: World, es: seq<Event>, more: seq<Event>)
    ensures Print(w, es) <= Print(w, es + more) && DoneOf(es) <= DoneOf(es + more)
    decreases |more|
  {
    if more == [] {
      assert es + more == es;
    } else {
      var init, last := more[..|more| - 1], more[|more| - 1];
      PrintOfPrefix(w, es, init);
      assert es + more == (es + init) + [last];
      PrintAppend(w, es + init, last);
      DoneAppend(es + init, last);
    }
  }

  /** What has been recorded in full stays in the file, byte for byte, through all later crashes, recoveries and
      appends, and so do the completions among it. */
  lemma RecordsAreDurable(w: World, from: Campaign, steps: seq<Step>, s: Campaign)
    requires Lawful(w) && Reachable(w, from) && Reaches(w, from, steps, s)
    ensures Print(w, from.log) <= from.ledger && Print(w, from.log) <= s.ledger
    ensures DoneOf(from.log) <= DoneOf(s.log)
  {
    ReachableInv(w, from);
    RunInv(w, from, steps, s);
    LogOnlyGrows(w, from, steps, s);
    LedgerHoldsLog(w, from);
    LedgerHoldsLog(w, s);
    LongerLogHolds(w, from.log, s.log);
  }

  lemma LongerLogHolds(w: World, log: seq<Event>, later: seq<Event>)
    requires log <= later
    ensures Print(w, log) <= Print(w, later) && DoneOf(log) <= DoneOf(later)
  {
    assert later == log + later[|log|..];
    PrintOfPrefix(w, log, later[|log|..]);
  }

  lemma LedgerHoldsLog(w: World, s: Campaign)
    requires Inv(w, s)
    ensures Print(w, s.log) <= s.ledger
  {
  }

  /** Once a campaign has been refused, every later resume is refused, and nothing is recorded any more. */
  lemma {:induction false} RefusalIsFinal(w: World, from: Campaign, steps: seq<Step>, s: Campaign)
    requires Lawful(w) && Inv(w, from) && Reaches(w, from, steps, s)
    requires !Running(from.proc) && from.pending.None? && !Paired(w, from.log)
    ensures s.log == from.log && !Running(s.proc)
    decreases |steps|
  {
    if steps == [] {
    } else {
      var t := Apply(w, from, steps[0]);
      StepInv(w, from, steps[0]);
      assert t.log == from.log && t.pending.None?;
      RefusalIsFinal(w, t, steps[1..], s);
    }
  }

  lemma RefusedForGood(w: World, s: Campaign, steps: seq<Step>, later: Campaign)
    requires Lawful(w) && Reachable(w, s) && s.proc.Refused? && Reaches(w, s, steps, later)
    ensures later.log == s.log && !Running(later.proc)
  {
    ReachableInv(w, s);
    RefusalIsFinal(w, s, steps, later);
  }

  /** Every sample has at most one attempt, in schedule order, across all crashes and resumes. */
  lemma OneAttemptEach(w: World, s: Campaign, i: nat, j: nat)
    requires Lawful(w) && Reachable(w, s) && i < j < |s.log| && s.log[i].Started? && s.log[j].Started?
    ensures s.log[i].id != s.log[j].id
  {
    ReachableInv(w, s);
    StartedAt(w, s.log, i);
    StartedAt(w, s.log, j);
  }

  lemma StartedAt(w: World, log: seq<Event>, i: nat)
    requires History(w, log) && i < |log| && log[i].Started?
    ensures i % 2 == 0 && IsStart(w, log[i], i / 2)
  {
    if Abandoned(w, log) {
      StartedAt(w, log[..|log| - 1], i);
    } else if i < 2 * (|log| / 2) {
      PairFacts(w, log, |log| / 2, i / 2);
    }
  }
}

/** The campaign's files and the functions of scripts/stealth-campaign.py that read and append to them. */
module CampaignObject {
  import opened Basics
  import opened Campaign
  import opened CampaignProofs

  /** What one os.write does: it is interrupted, or takes `count` bytes, or takes none. */
  datatype WriteResult = Interrupted | Took(count: int)

  /** The process is killed when the results run out. */
  datatype Ending = AllWritten | WriteError | Killed

  /** A file opened for appending. */
  class File {
    var contents: Bytes

    constructor ()
      ensures contents == []
    {
      contents := [];
    }

    /** write_all. However it ends, what it added is a prefix of the data. */
    method WriteAll(data: Bytes, results: seq<WriteResult>) returns (ending: Ending)
      modifies this
      ensures old(contents) <= contents <= old(contents) + data
      ensures ending == AllWritten ==> contents == old(contents) + data
    {
      var written: nat, i: nat := 0, 0;
      assert contents == old(contents) + data[..0];
      while written < |data|
        invariant written <= |data| && i <= |results|
        invariant contents == old(contents) + data[..written]
        decreases |results| - i, |data| - written
      {
        if i == |results| { return Killed; }
        var r := results[i];
        i := i + 1;
        match r {
          case Interrupted => continue;
          case Took(count) =>
            if count <= 0 { return WriteError; }
            var n := Min(count, |data| - written);
            contents := contents + data[written..written + n];
            assert data[..written + n] == data[..written] + data[written..written + n];
            written := written + n;
        }
      }
      assert data[..written] == data;
      return AllWritten;
    }

    /** append_event. A crash in it is undone or completed by the next recovery. */
    method AppendEvent(w: World, e: Event, ghost es: seq<Event>, results: seq<WriteResult>) returns (ending: Ending)
      requires Encodes(w, e) && contents == Print(w, es)
      modifies this
      ensures ending == AllWritten ==> contents == Print(w, es + [e])
      ensures Recover(w, contents) in {Print(w, es), Print(w, es + [e])}
    {
      PrintAppend(w, es, e);
      ending := WriteAll(Record(w, e), results);
      PartOfRecord(w, es, e, contents);
    }

    /** recover_final_ledger_tail. */
    method RecoverTail(w: World)
      modifies this
      ensures contents == Recover(w, old(contents))
    {
      if contents == [] || contents[|contents| - 1] == NL { return; }
      var boundary: nat := |contents|;
      assert contents[..boundary] == contents;
      while boundary > 0 && contents[boundary - 1] != NL
        invariant boundary <= |contents| && Boundary(contents[..boundary]) == Boundary(contents)
      {
        boundary := boundary - 1;
        assert contents[..boundary + 1][..boundary] == contents[..boundary];
      }
      BoundaryReached(contents, boundary);
      if w.decode(contents[boundary..]).Malformed? {
        contents := contents[..boundary];
      } else {
        contents := contents + [NL];
      }
    }

    /** load_ledger accepts exactly what recovery turns into start and completion pairs along the schedule. */
    method LoadLedger(w: World) returns (r: Option<map<Id, Event>>)
      requires Distinct(w)
      modifies this
      ensures contents == Recover(w, old(contents))
      ensures r == match Load(w, contents) case None => None case Some(done) => Some(Completions(done))
    {
      RecoverTail(w);
      var events := ReadEvents(w, contents);
      if events.None? { return None; }
      r := LoadEvents(w, events.value);
    }
  }

  lemma PartOfRecord(w: World, es: seq<Event>, e: Event, contents: Bytes)
    requires Encodes(w, e) && Print(w, es) <= contents <= Print(w, es) + Record(w, e)
    ensures Recover(w, contents) in {Print(w, es), Print(w, es + [e])}
  {
    var k := |contents| - |Print(w, es)|;
    PrintAppend(w, es, e);
    if k == |Record(w, e)| {
      assert contents == Print(w, es) + Record(w, e);
      RecoverComplete(w, es + [e]);
    } else {
      assert contents == Print(w, es) + w.encode(e)[..k];
      RecoverAfterCrash(w, es, e, k);
    }
  }

  lemma BoundaryReached(c: Bytes, b: nat)
    requires b <= |c| && Boundary(c[..b]) == Boundary(c) && (b > 0 ==> c[b - 1] == NL)
    ensures Boundary(c) == b
  {
  }

  function Behind(es: seq<Event>, more: Option<seq<Event>>): Option<seq<Event>> {
    if more.None? then None else Some(es + more.value)
  }

  lemma ReadStep(w: World, c: Bytes, es: seq<Event>)
    requires c != []
    ensures Behind(es, EventsOf(w, Lines(c))) ==
            var first := w.decode(c[..FirstBreak(c)]);
            if first.Parsed? then Behind(es + [first.event], EventsOf(w, Lines(AfterLine(c)))) else None
  {
    var line := c[..FirstBreak(c)];
    var others := Lines(AfterLine(c));
    assert Lines(c) == [line] + others;
    var first, more := w.decode(line), EventsOf(w, others);
    if first.Parsed? && more.Some? { assert es + ([first.event] + more.value) == (es + [first.event]) + more.value; }
  }

  /** read_ledger_events, on a recovered ledger. A line that is no supported event refuses the ledger. */
  method ReadEvents(w: World, contents: Bytes) returns (r: Option<seq<Event>>)
    ensures r == EventsOf(w, Lines(contents))
  {
    var rest, es := contents, [];
    BehindNothing(EventsOf(w, Lines(contents)));
    while rest != []
      invariant EventsOf(w, Lines(contents)) == Behind(es, EventsOf(w, Lines(rest)))
      decreases |rest|
    {
      ReadStep(w, rest, es);
      var decoded := w.decode(rest[..FirstBreak(rest)]);
      if !decoded.Parsed? { return None; }
      es := es + [decoded.event];
      rest := AfterLine(rest);
    }
    assert es + [] == es;
    return Some(es);
  }

  lemma BehindNothing(more: Option<seq<Event>>)
    ensures Behind([], more) == more
  {
    if more.Some? { assert [] + more.value == more.value; }
  }

  /** The loop of load_ledger. */
  method LoadEvents(w: World, es: seq<Event>) returns (r: Option<map<Id, Event>>)
    requires Distinct(w)
    ensures r == if Paired(w, es) then Some(Completions(DoneOf(es))) else None
  {
    var completed: map<Id, Event> := map[];
    var hashes: map<Bytes, Id> := map[];
    var open: Option<Id> := None;
    var next := 0;
    for k := 0 to |es|
      invariant k == 2 * next + (if open.Some? then 1 else 0)
      invariant LoadInv(w, es, next, completed, hashes)
      invariant open.Some? ==> next < |w.samples| && open.value == w.samples[next] && IsStart(w, es[2 * next], next)
    {
      var event := es[k];
      Expected(w, es, next, k, completed, hashes);
      if event.id !in w.samples { return None; }
      if event.id in completed { return None; }
      if !w.valid(event) { return None; }
      match event {
        case Started(id, _) =>
          if open.Some? { return None; }
          if next >= |w.samples| || id != w.samples[next] { return None; }
          open := Some(id);
        case Failed(_, _) =>
          return None;
        case Completed(id, digest, _) =>
          if open != Some(id) { return None; }
          if digest in hashes { return None; }
          LoadNext(w, es, next, completed, hashes);
          hashes := hashes[digest := id];
          completed := completed[id := event];
          open := None;
          next := next + 1;
      }
    }
    if open.Some? { return None; }
    assert es[..2 * next] == es;
    return Some(completed);
  }

  /** After `n` pairs: what is completed, and whose captures are known. */
  ghost predicate LoadInv(w: World, es: seq<Event>, n: nat, completed: map<Id, Event>, hashes: map<Bytes, Id>) {
    PairsUpTo(w, es, n) && completed == Completions(DoneOf(es[..2 * n])) && Captures(es, n, hashes)
  }

  /** The digests of the first `n` completions. */
  ghost predicate Captures(es: seq<Event>, n: nat, hashes: map<Bytes, Id>)
    requires 2 * n <= |es|
  {
    && (forall j :: 0 <= j < n ==> Digest(DoneAt(es, j)) in hashes)
    && (forall d :: d in hashes ==> exists j :: 0 <= j < n && Digest(DoneAt(es, j)) == d)
  }

  lemma CapturesNext(es: seq<Event>, n: nat, hashes: map<Bytes, Id>, id: Id)
    requires 2 * n + 1 < |es| && Captures(es, n, hashes)
    ensures Captures(es, n + 1, hashes[Digest(DoneAt(es, n)) := id])
  {
    var d := Digest(DoneAt(es, n));
    var next := hashes[d := id];
    forall e <- next ensures exists j :: 0 <= j < n + 1 && Digest(DoneAt(es, j)) == e {
      if e != d {
        var j :| 0 <= j < n && Digest(DoneAt(es, j)) == e;
      }
    }
  }

  lemma CompletionsNext(es: seq<Event>, n: nat)
    requires 2 * n + 1 < |es| && es[2 * n].Started? && es[2 * n + 1].Completed?
    ensures Completions(DoneOf(es[..2 * (n + 1)])) ==
            Completions(DoneOf(es[..2 * n]))[es[2 * n + 1].id := es[2 * n + 1]]
  {
    DoneOfPair(es, n);
    var done := DoneOf(es[..2 * n]);
    assert (done + [es[2 * n + 1]])[..|done|] == done;
  }

  /** What an accepted ledger holds at position `k`, in pair `n`. */
  lemma Expected(w: World, es: seq<Event>, n: nat, k: nat, completed: map<Id, Event>, hashes: map<Bytes, Id>)
    requires Distinct(w) && LoadInv(w, es, n, completed, hashes) && k < |es| && (k == 2 * n || k == 2 * n + 1)
    ensures Paired(w, es) ==> n < |w.samples| && w.valid(es[k]) && es[k].id == w.samples[n] && es[k].id !in completed
    ensures Paired(w, es) && k == 2 * n ==> es[k].Started?
    ensures Paired(w, es) && k == 2 * n + 1 ==> es[k].Completed? && es[k].digest !in hashes
  {
    if Paired(w, es) {
      assert PairAt(w, es, n);
      CompletedSamples(w, es, n, completed);
      NoDuplicate(es, n, hashes);
    }
  }

  lemma NoDuplicate(es: seq<Event>, n: nat, hashes: map<Bytes, Id>)
    requires 2 * n + 1 < |es| && Captures(es, n, hashes) && NewDigest(es, n, DoneAt(es, n))
    ensures Digest(DoneAt(es, n)) !in hashes
  {
  }

  lemma CompletedSamples(w: World, es: seq<Event>, n: nat, completed: map<Id, Event>)
    requires Distinct(w) && PairsUpTo(w, es, n) && completed == Completions(DoneOf(es[..2 * n]))
    ensures forall i :: 0 <= i < |w.samples| ==> (w.samples[i] in completed <==> i < n)
  {
    DoneOfPairs(w, es, n);
    var done := DoneOf(es[..2 * n]);
    forall i | 0 <= i < n ensures IsDone(w, done[i], i) { assert PairAt(w, es, i); }
    if n > 0 { assert PairAt(w, es, n - 1); }
    CompletionsAlong(w, done);
  }

  lemma LoadNext(w: World, es: seq<Event>, n: nat, completed: map<Id, Event>, hashes: map<Bytes, Id>)
    requires LoadInv(w, es, n, completed, hashes) && 2 * n + 1 < |es|
    requires IsStart(w, es[2 * n], n) && IsDone(w, es[2 * n + 1], n) && es[2 * n + 1].digest !in hashes
    ensures var e := es[2 * n + 1]; LoadInv(w, es, n + 1, completed[e.id := e], hashes[e.digest := e.id])
  {
    assert DoneAt(es, n) == es[2 * n + 1] && NewDigest(es, n, es[2 * n + 1]);
    assert PairAt(w, es, n);
    CapturesNext(es, n, hashes, es[2 * n + 1].id);
    CompletionsNext(es, n);
  }

  /** render_manifest. */
  method RenderManifest(w: World, completed: map<Id, Event>) returns (out: Bytes)
    ensures out == Render(w, completed)
  {
    out := w.header;
    for i := 0 to |w.samples|
      invariant out == w.header + RenderRows(w, w.samples[..i], completed)
    {
      assert w.samples[..i + 1][..i] == w.samples[..i];
      if w.samples[i] in completed {
        out := out + w.row(completed[w.samples[i]]);
      }
    }
    assert w.samples[..|w.samples|] == w.samples;
  }

  datatype Reconciliation = Refusal | Size(bytes: nat) | Unfinished

  /** The manifest; None is a missing file. */
  class Manifest {
    var file: Option<Bytes>

    constructor ()
      ensures file == None
    {
      file := None;
    }

    /** append_bytes. */
    method AppendBytes(data: Bytes, expectedSize: nat, results: seq<WriteResult>) returns (ending: Ending)
      modifies this
      ensures if old(file).Some? && |old(file).value| == expectedSize
              then file.Some? && old(file).value <= file.value <= old(file).value + data &&
                   (ending == AllWritten ==> file.value == old(file).value + data)
              else file == old(file) && ending == WriteError
    {
      if file.None? || |file.value| != expectedSize { return WriteError; }
      var f := new File();
      f.contents := file.value;
      ending := f.WriteAll(data, results);
      file := Some(f.contents);
    }

    /** reconcile_manifest repairs exactly the prefixes of the expected manifest, and a repair cut short leaves
        a prefix again. */
    method Reconcile(expected: Bytes, results: seq<WriteResult>) returns (r: Reconciliation)
      modifies this
      ensures r.Refusal? <==> old(file).Some? && !(old(file).value <= expected)
      ensures r.Refusal? ==> file == old(file)
      ensures r.Size? ==> file == Some(expected) && r.bytes == |expected|
      ensures r.Unfinished? ==> file.Some? && old(file).Some? && old(file).value <= file.value <= expected
    {
      if file.None? {
        file := Some(expected);
      } else {
        if !(file.value <= expected) { return Refusal; }
        var suffix := expected[|file.value|..];
        assert file.value + suffix == expected && file.value + [] == file.value;
        if suffix != [] {
          var ending := AppendBytes(suffix, |file.value|, results);
          if ending != AllWritten { return Unfinished; }
        }
      }
      return Size(|expected|);
    }

    /** append_manifest_row keeps the manifest a full rendering of the completed samples. */
    method AppendRow(w: World, done: seq<Event>, e: Event, expectedSize: nat, results: seq<WriteResult>)
        returns (ending: Ending, size: nat)
      requires Distinct(w) && Along(w, done + [e])
      requires file == Some(Render(w, Completions(done))) && |file.value| == expectedSize
      modifies this
      ensures ending == AllWritten ==> file == Some(Render(w, Completions(done + [e]))) && size == |file.value|
      ensures file.Some? && file.value <= Render(w, Completions(done + [e]))
    {
      assert Along(w, done) by {
        forall i | 0 <= i < |done| ensures IsDone(w, done[i], i) { assert (done + [e])[i] == done[i]; }
      }
      RenderIsAppended(w, done);
      RenderIsAppended(w, done + [e]);
      AppendedAppend(w, done, e);
      ending := AppendBytes(w.row(e), expectedSize, results);
      size := expectedSize + |w.row(e)|;
    }
  }
}

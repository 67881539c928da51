/** The loop and the step machine make the same calls of the same callbacks. They only
    differ in entry_index, which the loop also advances for empty headers. */
module UntarSame {
  import opened TarHeader
  import opened UntarSpec

  function Unindexed(e: Event): Event {
    match e
    case Began(h, _) => Began(h, 0)
    case Wrote(h, _, b) => Wrote(h, 0, b)
    case Ended(h, _) => Ended(h, 0)
  }

  function Calls(log: seq<Event>): seq<Event> {
    seq(|log|, (i: nat) requires i < |log| => Unindexed(log[i]))
  }

  /** The rest of an entry from data block `i` on, and the code of the failure, or 0. */
  ghost function Body(j: Job, p: Place, h: EntryHeader, i: nat): (r: (Place, int))
    ensures r.0.used >= p.used && r.0.empties == p.empties && p.log <= r.0.log
    ensures r.1 == 0 ==> r.0.used >= p.used + NumBlocks(h.filesize) - i && r.0.index == p.index + 1
    ensures r.1 == 0 && i <= NumBlocks(h.filesize) ==> r.0.used == p.used + NumBlocks(h.filesize) - i
    decreases |j.blocks| - p.used
  {
    if i < NumBlocks(h.filesize) then
      if p.used >= |j.blocks| then (p, TAR_ERR_READBLOCK_FAIL)
      else
        var q := Called(p.(used := p.used + 1), Wrote(h, p.index, j.blocks[p.used][..PortionSize(h.filesize, i)]));
        if |q.log| != j.failing then Body(j, q, h, i + 1) else (q, TAR_ERR_DATACB_FAIL)
    else
      var q := Called(p, Ended(h, p.index));
      if |q.log| != j.failing then (q.(index := q.index + 1), 0) else (q, TAR_ERR_FOOTERCB_FAIL)
  }

  lemma {:induction false} DataIsBody(j: Job, p: Place, h: EntryHeader, i: nat)
    ensures var r := Body(j, p, h, i);
      DataBlocks(j, p, h, i) == if r.1 == 0 then Entries(j, r.0) else Outcome(r.0.log, Failed(r.1), r.0.used)
    decreases |j.blocks| - p.used
  {
    hide Entries, PortionSize;
    if i < NumBlocks(h.filesize) && p.used < |j.blocks| {
      var q := Called(p.(used := p.used + 1), Wrote(h, p.index, j.blocks[p.used][..PortionSize(h.filesize, i)]));
      if |q.log| != j.failing { DataIsBody(j, q, h, i + 1); }
    }
  }

  /** The same archive and the same failure, counted and not. */
  predicate Twins(t: Job, f: Job) {
    t.counting && !f.counting && t.blocks == f.blocks && t.failing == f.failing
  }

  predicate Alike(p: Place, q: Place) {
    p.used == q.used && p.empties == q.empties && Calls(p.log) == Calls(q.log)
  }

  lemma CallsGrow(p: Place, q: Place, e: Event, d: Event)
    requires Alike(p, q) && Unindexed(e) == Unindexed(d)
    ensures Alike(Called(p, e), Called(q, d)) && |p.log| == |q.log|
  {
    assert |Calls(p.log)| == |p.log| && |Calls(q.log)| == |q.log|;
    assert Calls(p.log + [e]) == Calls(p.log) + [Unindexed(e)];
    assert Calls(q.log + [d]) == Calls(q.log) + [Unindexed(d)];
  }

  lemma {:induction false} BodyAlike(t: Job, f: Job, p: Place, q: Place, h: EntryHeader, i: nat)
    requires Twins(t, f) && Alike(p, q)
    ensures var r, s := Body(t, p, h, i), Body(f, q, h, i); r.1 == s.1 && Alike(r.0, s.0)
    decreases |t.blocks| - p.used
  {
    hide PortionSize, Calls;
    if i < NumBlocks(h.filesize) {
      if p.used < |t.blocks| {
        var b := t.blocks[p.used][..PortionSize(h.filesize, i)];
        var p1, q1 := p.(used := p.used + 1), q.(used := q.used + 1);
        CallsGrow(p1, q1, Wrote(h, p.index, b), Wrote(h, q.index, b));
        var p2, q2 := Called(p1, Wrote(h, p.index, b)), Called(q1, Wrote(h, q.index, b));
        if |p2.log| != t.failing { BodyAlike(t, f, p2, q2, h, i + 1); }
      }
    } else {
      CallsGrow(p, q, Ended(h, p.index), Ended(h, q.index));
    }
  }

  /** Whatever the archive and whichever callback fails: the same calls, in the same order. */
  lemma {:induction false} SameCalls(t: Job, f: Job, p: Place, q: Place)
    requires Twins(t, f) && Alike(p, q)
    ensures var r, s := Entries(t, p), Entries(f, q);
      r.status == s.status && r.used == s.used && Calls(r.log) == Calls(s.log)
    decreases |t.blocks| - p.used
  {
    hide Calls, Translated, DataBlocks, Body;
    if p.empties < 2 && p.used < |t.blocks| {
      var b := t.blocks[p.used];
      var p1, q1 := p.(used := p.used + 1), q.(used := q.used + 1);
      if b[0] == 0 {
        SameCalls(t, f, p1.(empties := p.empties + 1, index := p.index + 1), q1.(empties := p.empties + 1));
      } else {
        var h := Translated(b);
        CallsGrow(p1, q1, Began(h, p.index), Began(h, q.index));
        var p2, q2 := Called(p1, Began(h, p.index)), Called(q1, Began(h, q.index));
        DataIsBody(t, p2, h, 0);
        DataIsBody(f, q2, h, 0);
        BodyAlike(t, f, p2, q2, h, 0);
        var r, s := Body(t, p2, h, 0), Body(f, q2, h, 0);
        if r.1 == 0 { SameCalls(t, f, r.0, s.0); }
      }
    }
  }

  /** An entry comes after an empty header. */
  predicate EntryAfterEmpty(blocks: seq<Block>, k: nat, empties: nat)
    decreases |blocks| - k
  {
    if empties >= 2 || k >= |blocks| then false
    else if blocks[k][0] == 0 then EntryAfterEmpty(blocks, k + 1, empties + 1)
    else empties == 1 || EntryAfterEmpty(blocks, k + 1 + NumBlocks(Translated(blocks[k]).filesize), empties)
  }

  lemma {:induction false} BodyEqual(t: Job, f: Job, p: Place, h: EntryHeader, i: nat)
    requires Twins(t, f)
    ensures Body(t, p, h, i) == Body(f, p, h, i)
    decreases |t.blocks| - p.used
  {
    hide PortionSize;
    if i < NumBlocks(h.filesize) && p.used < |t.blocks| {
      var q := Called(p.(used := p.used + 1), Wrote(h, p.index, t.blocks[p.used][..PortionSize(h.filesize, i)]));
      if |q.log| != t.failing { BodyEqual(t, f, q, h, i + 1); }
    }
  }

  lemma {:induction false} LogGrows(j: Job, p: Place)
    ensures p.log <= Entries(j, p).log
    ensures p.empties < 2 && p.used < |j.blocks| && j.blocks[p.used][0] != 0 ==>
      p.log + [Began(Translated(j.blocks[p.used]), p.index)] <= Entries(j, p).log
    decreases |j.blocks| - p.used
  {
    hide Translated, DataBlocks, Body;
    if p.empties < 2 && p.used < |j.blocks| {
      var b := j.blocks[p.used];
      var p1 := p.(used := p.used + 1);
      if b[0] == 0 {
        LogGrows(j, p1.(empties := p.empties + 1, index := if j.counting then p.index + 1 else p.index));
      } else {
        var p2 := Called(p1, Began(Translated(b), p.index));
        DataIsBody(j, p2, Translated(b), 0);
        var r := Body(j, p2, Translated(b), 0);
        if r.1 == 0 { LogGrows(j, r.0); }
      }
    }
  }

  /** Counted and not, the place is the same but for the index after an empty header. */
  predicate InStep(p: Place, q: Place) {
    p.used == q.used && p.empties == q.empties && p.log == q.log && p.index == q.index + p.empties
  }

  lemma {:induction false} SameIndices(t: Job, f: Job, p: Place, q: Place)
    requires Twins(t, f) && InStep(p, q) && !EntryAfterEmpty(t.blocks, p.used, p.empties)
    ensures Entries(t, p).log == Entries(f, q).log
    decreases |t.blocks| - p.used
  {
    hide Translated, DataBlocks, Body, NumBlocks;
    if p.empties < 2 && p.used < |t.blocks| {
      var b := t.blocks[p.used];
      var p1, q1 := p.(used := p.used + 1), q.(used := q.used + 1);
      if b[0] == 0 {
        SameIndices(t, f, p1.(empties := p.empties + 1, index := p.index + 1), q1.(empties := p.empties + 1));
      } else {
        var h := Translated(b);
        var p2 := Called(p1, Began(h, p.index));
        DataIsBody(t, p2, h, 0);
        DataIsBody(f, p2, h, 0);
        BodyEqual(t, f, p2, h, 0);
        var r := Body(t, p2, h, 0);
        if r.1 == 0 { SameIndices(t, f, r.0, r.0); }
      }
    }
  }

  lemma {:induction false} OtherIndices(t: Job, f: Job, p: Place, q: Place)
    requires Twins(t, f) && InStep(p, q) && EntryAfterEmpty(t.blocks, p.used, p.empties)
    requires Entries(t, p).status == Complete
    ensures Entries(t, p).log != Entries(f, q).log
    decreases |t.blocks| - p.used
  {
    hide Translated, DataBlocks, Body, NumBlocks;
    var b := t.blocks[p.used];
    var p1, q1 := p.(used := p.used + 1), q.(used := q.used + 1);
    if b[0] == 0 {
      OtherIndices(t, f, p1.(empties := p.empties + 1, index := p.index + 1), q1.(empties := p.empties + 1));
    } else if p.empties == 1 {
      LogGrows(t, p);
      LogGrows(f, q);
      assert Entries(t, p).log[|p.log|] == Began(Translated(b), p.index);
      assert Entries(f, q).log[|p.log|] == Began(Translated(b), q.index);
    } else {
      var h := Translated(b);
      var p2 := Called(p1, Began(h, p.index));
      DataIsBody(t, p2, h, 0);
      DataIsBody(f, p2, h, 0);
      BodyEqual(t, f, p2, h, 0);
      var r := Body(t, p2, h, 0);
      OtherIndices(t, f, r.0, r.0);
    }
  }

  /** The step machine refines the loop: same calls with the same payloads, same end. On a
      complete archive the entry indices agree too, if and only if no entry comes after an
      empty header. */
  lemma StepsRefineLoop(blocks: seq<Block>, failing: nat)
    ensures var p := Place(0, 0, 0, []);
      var r, s := Entries(Job(blocks, true, failing), p), Entries(Job(blocks, false, failing), p);
      && r.status == s.status && r.used == s.used && Calls(r.log) == Calls(s.log)
      && (r.status == Complete ==> (r.log == s.log <==> !EntryAfterEmpty(blocks, 0, 0)))
  {
    hide Entries, EntryAfterEmpty, Calls;
    var p, t, f := Place(0, 0, 0, []), Job(blocks, true, failing), Job(blocks, false, failing);
    SameCalls(t, f, p, p);
    if EntryAfterEmpty(blocks, 0, 0) {
      if Entries(t, p).status == Complete { OtherIndices(t, f, p, p); }
    } else {
      SameIndices(t, f, p, p);
    }
  }

  lemma {:induction false} BodyPrefix(j: Job, k: Job, p: Place, h: EntryHeader, i: nat)
    requires j.blocks <= k.blocks && j.failing == k.failing && Body(j, p, h, i).1 == 0
    ensures Body(k, p, h, i) == Body(j, p, h, i)
    decreases |j.blocks| - p.used
  {
    hide PortionSize;
    if i < NumBlocks(h.filesize) && p.used < |j.blocks| {
      var q := Called(p.(used := p.used + 1), Wrote(h, p.index, j.blocks[p.used][..PortionSize(h.filesize, i)]));
      if |q.log| != j.failing { BodyPrefix(j, k, q, h, i + 1); }
    }
  }

  /** Blocks after the end of a complete archive do not matter. */
  lemma {:induction false} CompletePrefix(j: Job, k: Job, p: Place)
    requires j.blocks <= k.blocks && j.failing == k.failing && j.counting == k.counting
    requires Entries(j, p).status == Complete
    ensures Entries(k, p) == Entries(j, p)
    decreases |j.blocks| - p.used
  {
    hide Translated, DataBlocks, Body;
    if p.empties < 2 && p.used < |j.blocks| {
      var b := j.blocks[p.used];
      var p1 := p.(used := p.used + 1);
      if b[0] == 0 {
        CompletePrefix(j, k, p1.(empties := p.empties + 1, index := if j.counting then p.index + 1 else p.index));
      } else {
        var p2 := Called(p1, Began(Translated(b), p.index));
        DataIsBody(j, p2, Translated(b), 0);
        DataIsBody(k, p2, Translated(b), 0);
        BodyPrefix(j, k, p2, Translated(b), 0);
        CompletePrefix(j, k, Body(j, p2, Translated(b), 0).0);
      }
    }
  }

  /** Nor do they from anywhere within it. */
  lemma DataPrefix(j: Job, k: Job, p: Place, h: EntryHeader, i: nat)
    requires j.blocks <= k.blocks && j.failing == k.failing && j.counting == k.counting
    requires DataBlocks(j, p, h, i).status == Complete
    ensures DataBlocks(k, p, h, i) == DataBlocks(j, p, h, i)
  {
    hide Entries, DataBlocks, Body;
    DataIsBody(j, p, h, i);
    DataIsBody(k, p, h, i);
    if Body(j, p, h, i).1 == 0 {
      BodyPrefix(j, k, p, h, i);
      CompletePrefix(j, k, Body(j, p, h, i).0);
    }
  }

  lemma RestPrefix(j: Job, k: Job, p: Place, h: EntryHeader, i: nat, b: Block, headerRead: bool)
    requires j.blocks <= k.blocks && j.failing == k.failing && j.counting == k.counting
    ensures DataBlocks(j, p, h, i).status == Complete ==> DataBlocks(k, p, h, i) == DataBlocks(j, p, h, i)
    ensures i < NumBlocks(h.filesize) && StaleData(j, p, h, i, b).status == Complete ==>
      StaleData(k, p, h, i, b) == StaleData(j, p, h, i, b)
    ensures Begun(j, p, headerRead, false, b).status == Complete ==>
      Begun(k, p, headerRead, false, b) == Begun(j, p, headerRead, false, b)
  {
    hide Begun, DataBlocks, StaleData, DataBlock, Translated, NumBlocks, PortionSize, Entries;
    if DataBlocks(j, p, h, i).status == Complete { DataPrefix(j, k, p, h, i); }
    if i < NumBlocks(h.filesize) && StaleData(j, p, h, i, b).status == Complete {
      StaleDataStep(j, p, h, i, b);
      StaleDataStep(k, p, h, i, b);
      DataStep(j, p, h, i, b);
      DataStep(k, p, h, i, b);
      var q := Called(p, Wrote(h, p.index, b[..PortionSize(h.filesize, i)]));
      DataPrefix(j, k, q, h, i + 1);
    }
    BegunPrefix(j, k, p, b, headerRead);
  }

  lemma {:induction false} BegunPrefix(j: Job, k: Job, p: Place, b: Block, headerRead: bool)
    requires j.blocks <= k.blocks && j.failing == k.failing && j.counting == k.counting
    ensures Begun(j, p, headerRead, false, b).status == Complete ==>
      Begun(k, p, headerRead, false, b) == Begun(j, p, headerRead, false, b)
    decreases headerRead
  {
    hide Begun, DataBlocks, StaleData, Translated, Entries;
    if Begun(j, p, headerRead, false, b).status == Complete {
      if !headerRead {
        CleanStart(j, p, b);
        CleanStart(k, p, b);
        CompletePrefix(j, k, p);
      } else {
        BegunHeaderStep(j, p, false, b);
        BegunHeaderStep(k, p, false, b);
        if b[0] == 0 {
          BegunPrefix(j, k, Place(p.used, if j.counting then p.index + 1 else p.index, p.empties + 1, p.log), b, false);
        } else {
          var h, q := Translated(b), Called(p, Began(Translated(b), p.index));
          DataPrefix(j, k, q, h, 0);
        }
      }
    }
  }

  /** With no more blocks to read, an extraction that will be complete has made all its calls. */
  lemma NothingLeft(j: Job, p: Place, h: EntryHeader, i: nat, b: Block, headerRead: bool, dataRead: bool)
    requires p.used >= |j.blocks|
    ensures p.empties < 2 ==> DataBlocks(j, p, h, i).status != Complete && StaleData(j, p, h, i, b).status != Complete
    ensures (headerRead ==> p.empties < 2) && Begun(j, p, headerRead, dataRead, b).status == Complete ==>
      Begun(j, p, headerRead, dataRead, b).log == p.log
  {
    hide Begun, DataBlocks, StaleData, Translated;
    DataAtEnd(j, p, h, i, b);
    BegunStep(j, p, dataRead, b);
    if headerRead {
      BegunHeaderStep(j, p, dataRead, b);
      var h' := Translated(b);
      DataAtEnd(j, Called(p, Began(h', p.index)), h', 0, b);
      BegunStep(j, p.(empties := p.empties + 1, index := if j.counting then p.index + 1 else p.index), dataRead, b);
    }
  }

  lemma DataAtEnd(j: Job, p: Place, h: EntryHeader, i: nat, b: Block)
    requires p.used >= |j.blocks|
    ensures p.empties < 2 ==> DataBlocks(j, p, h, i).status != Complete && StaleData(j, p, h, i, b).status != Complete
  {
    hide PortionSize, NumBlocks;
    DataBlocksAtEnd(j, p, h, i);
    DataStep(j, p, h, i, b);
    DataBlocksAtEnd(j, Called(p, Wrote(h, p.index, b[..PortionSize(h.filesize, i)])), h, i + 1);
  }

  lemma DataBlocksAtEnd(j: Job, p: Place, h: EntryHeader, i: nat)
    requires p.used >= |j.blocks|
    ensures p.empties < 2 ==> DataBlocks(j, p, h, i).status != Complete
  {}
}

/** Where stores and events of a run come from: the steps that made them, in their order. */
module L7Provenance {
  import opened Bytes
  import opened Classifiers
  import opened L7
  import opened L7History

  /** The bytes and the size the classifiers see in a step. */
  function BytesSeen(t: Tables, s: Step): (seq<byte>, u64) {
    match s
    case Write(_, _, _, src, size, iovlen, _, cpu) => Resolve(src, size, iovlen, 0, cpu.iovecBuf)
    case ReadExit(id, _, _, r, _, cpu, _, _) =>
      if id in t.activeReads && BytesRead(t.activeReads[id], r).Some? then
        var n := BytesRead(t.activeReads[id], r).value;
        Resolve(r.src, n, t.activeReads[id].iovlen, n, cpu.iovecBuf)
      else ([], 0)
    case _ => ([], 0)
  }

  /** What step `n` of a run does, and the tables it does it to. */
  function Before(c: Classifiers, steps: seq<Timed>, n: nat): History
    requires n <= |steps|
  {
    Run(c, steps[..n])
  }

  function OutcomeOf(c: Classifiers, steps: seq<Timed>, n: nat): Outcome
    requires n < |steps|
  {
    Apply(c, Before(c, steps, n).tables, steps[n].ts, steps[n].step)
  }

  /** Step `n` stores a request: it asks to, and the key is free. */
  predicate Stores(c: Classifiers, steps: seq<Timed>, n: nat) {
    n < |steps| && OutcomeOf(c, steps, n).effect.Attempt?
    && OutcomeOf(c, steps, n).effect.key !in Before(c, steps, n).tables.pending
  }

  /** Step `n` sends a response event. */
  predicate Sends(c: Classifiers, steps: seq<Timed>, n: nat) {
    n < |steps| && OutcomeOf(c, steps, n).effect.Matched?
  }

  lemma OneStep(c: Classifiers, steps: seq<Timed>, n: nat)
    requires n < |steps|
    ensures Before(c, steps, n + 1) == Remember(Before(c, steps, n), OutcomeOf(c, steps, n))
  {
    assert steps[..n + 1][..n] == steps[..n];
  }

  lemma TablesAfter(h: History, o: Outcome)
    ensures Remember(h, o).tables == o.tables
  {
  }

  lemma RememberGrows(h: History, o: Outcome)
    ensures h.stored <= Remember(h, o).stored && h.emitted <= Remember(h, o).emitted
  {
  }

  lemma OneStepGrows(c: Classifiers, steps: seq<Timed>, n: nat)
    requires n < |steps|
    ensures Before(c, steps, n).stored <= Before(c, steps, n + 1).stored
    ensures Before(c, steps, n).emitted <= Before(c, steps, n + 1).emitted
  {
    OneStep(c, steps, n);
    RememberGrows(Before(c, steps, n), OutcomeOf(c, steps, n));
  }

  /** Nothing that was stored or sent is ever taken back. */
  lemma {:induction false} Grows(c: Classifiers, steps: seq<Timed>, m: nat, n: nat)
    requires m <= n <= |steps|
    ensures Before(c, steps, m).stored <= Before(c, steps, n).stored
    ensures Before(c, steps, m).emitted <= Before(c, steps, n).emitted
    decreases n
  {
    if m < n {
      Grows(c, steps, m, n - 1);
      OneStepGrows(c, steps, n - 1);
    }
  }

  lemma StepEffect(c: Classifiers, steps: seq<Timed>, n: nat)
    requires n < |steps|
    ensures EffectMeans(Before(c, steps, n).tables, NowOf(steps[n].step), OutcomeOf(c, steps, n))
  {
    ApplyEffect(c, Before(c, steps, n).tables, steps[n].ts, steps[n].step);
  }

  /** What a storing step leaves in the history for good. */
  lemma StoreStays(c: Classifiers, steps: seq<Timed>, n: nat)
    requires Stores(c, steps, n)
    ensures steps[n].step.Write?
    ensures
      var b, o := |Before(c, steps, n).stored|, OutcomeOf(c, steps, n);
      b < |Run(c, steps).stored| && Run(c, steps).stored[b] == Stored(o.effect.key, o.effect.request)
  {
    StepEffect(c, steps, n);
    OneStep(c, steps, n);
    Grows(c, steps, n + 1, |steps|);
    assert steps[..|steps|] == steps;
    AttemptsAreWrites(c, Before(c, steps, n).tables, steps[n].ts, steps[n].step);
  }

  lemma ReadsStoreNothing(c: Classifiers, t: Tables, ts: Timestamps, k: Key, mem: seq<byte>, size: u64, now: u64,
                          heap: Request, event: Event, copies: bool, recopies: bool)
    ensures !HandleRead(c, t, ts, k, mem, size, now, heap, event, copies, recopies).effect.Attempt?
  {
  }

  lemma AttemptsAreWrites(c: Classifiers, t: Tables, ts: Timestamps, s: Step)
    ensures Apply(c, t, ts, s).effect.Attempt? ==> s.Write?
  {
    if s.ReadExit? && s.id in t.activeReads {
      var args := t.activeReads[s.id];
      var (mem, size) := BytesSeen(t, s);
      ReadsStoreNothing(c, t.(activeReads := t.activeReads - {s.id}), ts, Key(args.fd, PidOf(s.pidTgid), s.isTls, -1), mem, size,
                        s.now, s.cpu.request, s.cpu.event, s.copies, s.recopies);
    }
  }

  /** Every store was made by a step. */
  lemma {:induction false} StoreWasMade(c: Classifiers, steps: seq<Timed>, b: nat, n: nat) returns (i: nat)
    requires n <= |steps| && b < |Before(c, steps, n).stored|
    ensures i < n && Stores(c, steps, i) && |Before(c, steps, i).stored| == b
    decreases n
  {
    if n == 0 {
      assert false;
    } else {
      OneStep(c, steps, n - 1);
      StepEffect(c, steps, n - 1);
      if b < |Before(c, steps, n - 1).stored| {
        i := StoreWasMade(c, steps, b, n - 1);
      } else {
        i := n - 1;
      }
    }
  }

  /** Every response event was sent by a step. */
  lemma {:induction false} EventWasSent(c: Classifiers, steps: seq<Timed>, e: nat, n: nat) returns (i: nat)
    requires n <= |steps| && e < |Before(c, steps, n).emitted|
    ensures i < n && Sends(c, steps, i) && |Before(c, steps, i).emitted| == e
    decreases n
  {
    if n == 0 {
      assert false;
    } else {
      OneStep(c, steps, n - 1);
      StepEffect(c, steps, n - 1);
      if e < |Before(c, steps, n - 1).emitted| {
        i := EventWasSent(c, steps, e, n - 1);
      } else {
        i := n - 1;
      }
    }
  }

  /** Step `n` stored the request that event `i` answers, and step `m` sent the event, later. */
  predicate AnsweredLater(c: Classifiers, steps: seq<Timed>, i: nat, n: nat, m: nat) {
    && Stores(c, steps, n) && Sends(c, steps, m) && n < m && steps[n].step.Write? && i < |Run(c, steps).emitted|
    && Run(c, steps).emitted[i].store == |Before(c, steps, n).stored| && |Before(c, steps, m).emitted| == i
    && OutcomeOf(c, steps, m).event == Some(Run(c, steps).emitted[i].event)
  }

  /** Every response event was sent by a step of the run, after the write whose request it answers. */
  lemma EventAfterItsWrite(c: Classifiers, steps: seq<Timed>, i: nat)
    requires i < |Run(c, steps).emitted|
    ensures exists n: nat, m: nat :: AnsweredLater(c, steps, i, n, m)
  {
    assert steps[..|steps|] == steps;
    var m := EventWasSent(c, steps, i, |steps|);
    OneStep(c, steps, m);
    StepEffect(c, steps, m);
    Grows(c, steps, m + 1, |steps|);
    RunInv(c, steps);
    var e := Run(c, steps).emitted[i];
    assert EmissionOk(Run(c, steps), e);
    assert e == Before(c, steps, m + 1).emitted[i] && e.before == |Before(c, steps, m).stored|;
    var n := StoreWasMade(c, steps, e.store, m);
    StoreStays(c, steps, n);
    assert AnsweredLater(c, steps, i, n, m);
  }

  /** At a match: the event is logged for the store its request came from, which it still carries. */
  lemma CarriedAtMatch(h: History, o: Outcome, now: u64)
    requires EffectMeans(h.tables, now, o) && o.effect.Matched? && LiveOk(h, o.effect.key)
    ensures
      var k, h' := o.effect.key, Remember(h, o);
      var b := OriginOf(h, k).store;
      && k in h.tables.pending && b < |h.stored| && h.stored[b].key == k
      && Carries(h.tables.pending[k], h.stored[b].request, b in h.cut)
      && |h'.emitted| == |h.emitted| + 1 && h'.emitted[|h.emitted|].store == b
  {
  }

  lemma SentForItsStore(c: Classifiers, steps: seq<Timed>, m: nat, h: History, o: Outcome)
    requires Sends(c, steps, m) && h == Before(c, steps, m) && o == OutcomeOf(c, steps, m)
    ensures
      var k, all := o.effect.key, Run(c, steps);
      |h.emitted| < |all.emitted| && k in h.tables.pending &&
      var b := all.emitted[|h.emitted|].store;
      && b < |h.stored| <= |all.stored| && h.stored[b] == all.stored[b] && h.stored[b].key == k
      && Carries(h.tables.pending[k], h.stored[b].request, b in h.cut)
  {
    StepEffect(c, steps, m);
    RunInv(c, steps[..m]);
    assert LiveOk(h, o.effect.key);
    CarriedAtMatch(h, o, NowOf(steps[m].step));
    OneStep(c, steps, m);
    assert steps[..|steps|] == steps;
    Grows(c, steps, m + 1, |steps|);
    Grows(c, steps, m, |steps|);
  }

  /** The request that is answered is still the one that was stored under its key, apart from the marks of a split or a failed
      copy. */
  lemma AnsweredIsStored(c: Classifiers, steps: seq<Timed>, i: nat, n: nat, m: nat)
    requires AnsweredLater(c, steps, i, n, m)
    ensures
      var h, k := Before(c, steps, m), OutcomeOf(c, steps, m).effect.key;
      && k in h.tables.pending && k == OutcomeOf(c, steps, n).effect.key
      && Carries(h.tables.pending[k], OutcomeOf(c, steps, n).effect.request, |Before(c, steps, n).stored| in h.cut)
  {
    SentForItsStore(c, steps, m, Before(c, steps, m), OutcomeOf(c, steps, m));
    StoreStays(c, steps, n);
  }
}

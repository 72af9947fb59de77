/**
 * The close barrier under interleaving. Senders and closers share one
 * status word and each performs its atomic steps on it:
 *
 *   a sender (TCPStream::send)         Enter: ++word, and sendBytes is called
 *                                             iff the new word has no closing bits;
 *                                      Exit:  --word.
 *   a closer (closeSendStatus, close)  Read:  sample the word;
 *                                      Add:   if the sample had no closing bits,
 *                                             word += SendStatusClosing, and the
 *                                             closer's result is computed from the sum;
 *                                      Finish: leave the wait loop, which is only
 *                                             possible while the word is Drained;
 *                                             close() tears the stream down iff
 *                                             the result is true.
 *
 * Any interleaving of enabled steps is a run, with any number of closers.
 * The packing relies on two bounds: fewer than SendStatusClosing senders are
 * ever in flight, and at most three closers race past the closing-bits
 * guard at once. The second bound is the source's "max of 3 entities can
 * close the stream at once", so a closer may sample a clear word only while
 * fewer than three closers have added, or are about to add, a marker.
 * Closers that come later see the marker and add nothing. `Variant` selects
 * how the closer computes its result: as TCPStream.cpp writes it (the sum
 * equals the marker) or as corrected (the sum holds exactly one marker).
 */
module CloseBarrier {
  import opened Wrappers
  import opened StatusWord

  datatype Variant = AsWritten | Corrected

  /** closeSendStatus's result, from the value its `+= SendStatusClosing` returned. */
  function JustClosed(v: Variant, sum: int): bool {
    match v
    case AsWritten => sum == SendStatusClosing
    case Corrected => ClosingPart(sum) == 1
  }

  /** Where one closer is in close(). */
  datatype Phase =
    | Idle                                              // not yet called
    | Sampled(clear: bool)                              // read the word; clear: it had no closing bits
    | Closing(added: bool, incd: bool, exited: bool)    // after the conditional add; exited: left the wait

  datatype Sys = Sys(word: int, inFlight: nat, closers: seq<Phase>, lateAdmits: nat)

  datatype Step = Enter | Exit | Read(j: nat) | Add(j: nat) | Finish(j: nat)

  predicate Added(p: Phase) { p.Closing? && p.added }
  predicate HoldsIncd(p: Phase) { p.Closing? && p.incd }
  predicate Exited(p: Phase) { p.Closing? && p.exited }
  predicate TornDown(p: Phase) { p.Closing? && p.incd && p.exited }
  predicate SampledClear(p: Phase) { p == Sampled(true) }

  /** How many phases of ps satisfy f. */
  function Count(ps: seq<Phase>, f: Phase -> bool): (n: nat)
    ensures n <= |ps|
  {
    if ps == [] then 0 else (if f(ps[0]) then 1 else 0) + Count(ps[1..], f)
  }

  /** The number of closing markers the closers have added to the word. */
  function Markers(s: Sys): nat { Count(s.closers, Added) }

  /** How many closers went on to unregister the stream's callbacks and broadcast closeStream. */
  function Teardowns(s: Sys): nat { Count(s.closers, TornDown) }

  /** Some close() call has returned. */
  predicate SomeCloseReturned(s: Sys) { Count(s.closers, Exited) > 0 }

  /** Closers that have added a marker or sampled a clear word and are about to add one. */
  function Racing(s: Sys): nat { Markers(s) + Count(s.closers, SampledClear) }

  /** Before anything happens: a zero word and `closers` closers yet to call close(). */
  function Init(closers: nat): Sys {
    Sys(0, 0, seq(closers, _ => Idle), 0)
  }

  predicate Enabled(s: Sys, step: Step) {
    match step
    case Enter => s.inFlight + 1 < SendStatusClosing
    case Exit => s.inFlight > 0
    case Read(j) => j < |s.closers| && s.closers[j].Idle? && (ClosingBitsClear(s.word) ==> Racing(s) < 3)
    case Add(j) => j < |s.closers| && s.closers[j].Sampled?
    case Finish(j) => j < |s.closers| && s.closers[j].Closing? && !s.closers[j].exited && Drained(s.word)
  }

  function Apply(v: Variant, s: Sys, step: Step): Sys
    requires Enabled(s, step)
  {
    match step
    case Enter =>
      var admitted := ClosingBitsClear(s.word + 1);
      var late := if admitted && SomeCloseReturned(s) then 1 else 0;
      s.(word := s.word + 1, inFlight := s.inFlight + 1, lateAdmits := s.lateAdmits + late)
    case Exit =>
      s.(word := s.word - 1, inFlight := s.inFlight - 1)
    case Read(j) =>
      s.(closers := s.closers[j := Sampled(ClosingBitsClear(s.word))])
    case Add(j) =>
      if s.closers[j].clear then
        var sum := s.word + SendStatusClosing;
        s.(word := sum, closers := s.closers[j := Closing(true, JustClosed(v, sum), false)])
      else
        s.(closers := s.closers[j := Closing(false, false, false)])
    case Finish(j) =>
      var p := s.closers[j];
      s.(closers := s.closers[j := Closing(p.added, p.incd, true)])
  }

  /** The state a run of steps reaches, or None if some step is not enabled when its turn comes. */
  function Run(v: Variant, s: Sys, steps: seq<Step>): Option<Sys>
    decreases |steps|
  {
    if steps == [] then Some(s)
    else if Enabled(s, steps[0]) then Run(v, Apply(v, s, steps[0]), steps[1..])
    else None
  }

  /** Every state of every run satisfies this. */
  ghost predicate Inv(v: Variant, s: Sys) {
    && Racing(s) <= 3
    && s.inFlight < SendStatusClosing
    && s.word == Pack(Markers(s), s.inFlight)
    // a closer that saw a marker, or got past its add, implies a marker is in the word
    && (Markers(s) == 0 ==> forall j :: 0 <= j < |s.closers| ==> s.closers[j].Idle? || s.closers[j] == Sampled(true))
    && s.lateAdmits == 0
    && Count(s.closers, HoldsIncd) <= 1
    && (Markers(s) == 0 ==> Count(s.closers, HoldsIncd) == 0)
    && (v == Corrected ==> (Markers(s) >= 1 ==> Count(s.closers, HoldsIncd) == 1))
  }

  lemma {:induction false} CountUpdate(ps: seq<Phase>, j: nat, p: Phase, f: Phase -> bool)
    requires j < |ps|
    ensures Count(ps[j := p], f) == Count(ps, f) - (if f(ps[j]) then 1 else 0) + (if f(p) then 1 else 0)
  {
    if j > 0 {
      assert ps[j := p][1..] == ps[1..][j - 1 := p];
      CountUpdate(ps[1..], j - 1, p, f);
    } else {
      assert ps[j := p][1..] == ps[1..];
    }
  }

  lemma {:induction false} CountNone(ps: seq<Phase>, f: Phase -> bool)
    requires forall j :: 0 <= j < |ps| ==> !f(ps[j])
    ensures Count(ps, f) == 0
  {
    if ps != [] {
      assert forall j :: 0 <= j < |ps[1..]| ==> ps[1..][j] == ps[j + 1];
      CountNone(ps[1..], f);
    }
  }

  lemma {:induction false} CountWitness(ps: seq<Phase>, f: Phase -> bool, j: nat)
    requires j < |ps| && f(ps[j])
    ensures Count(ps, f) >= 1
  {
    if j > 0 {
      CountWitness(ps[1..], f, j - 1);
    }
  }

  lemma {:induction false} CountMonotone(ps: seq<Phase>, f: Phase -> bool, g: Phase -> bool)
    requires forall p :: f(p) ==> g(p)
    ensures Count(ps, f) <= Count(ps, g)
  {
    if ps != [] {
      CountMonotone(ps[1..], f, g);
    }
  }

  lemma InitInv(v: Variant, n: nat)
    ensures Inv(v, Init(n))
  {
    var s := Init(n);
    CountNone(s.closers, Added);
    CountNone(s.closers, HoldsIncd);
    CountNone(s.closers, SampledClear);
    Unpack(0, 0);
  }

  /** Every enabled step keeps the invariant. */
  lemma StepInv(v: Variant, s: Sys, step: Step)
    requires Inv(v, s) && Enabled(s, step)
    ensures Inv(v, Apply(v, s, step))
  {
    match step
    case Enter => EnterInv(v, s);
    case Exit => ExitInv(v, s);
    case Read(j) => ReadInv(v, s, j);
    case Add(j) => AddInv(v, s, j);
    case Finish(j) => FinishInv(v, s, j);
  }

  /** A sender's increment: admitted only while no marker is present, so never after a close returned. */
  lemma EnterInv(v: Variant, s: Sys)
    requires Inv(v, s) && Enabled(s, Enter)
    ensures Inv(v, Apply(v, s, Enter))
  {
    var m := Markers(s);
    Unpack(m, s.inFlight);
    SenderAdmittedIffNoMarker(m, s.inFlight);
    if SomeCloseReturned(s) {
      assert m >= 1 by {
        if m == 0 {
          CountNone(s.closers, Exited);
        }
      }
    }
  }

  lemma ExitInv(v: Variant, s: Sys)
    requires Inv(v, s) && Enabled(s, Exit)
    ensures Inv(v, Apply(v, s, Exit))
  {
    var s' := Apply(v, s, Exit);
    assert s'.word == Pack(Markers(s), s'.inFlight);
  }

  /** A closer's sample: clear exactly when no marker is present. */
  lemma ReadInv(v: Variant, s: Sys, j: nat)
    requires Inv(v, s) && Enabled(s, Read(j))
    ensures Inv(v, Apply(v, s, Read(j)))
  {
    var s' := Apply(v, s, Read(j));
    CountUpdate(s.closers, j, s'.closers[j], Added);
    CountUpdate(s.closers, j, s'.closers[j], HoldsIncd);
    CountUpdate(s.closers, j, s'.closers[j], SampledClear);
    Unpack(Markers(s), s.inFlight);
  }

  /** A closer's conditional add: the marker count grows by one exactly for a clear sample, and stays within three. */
  lemma AddInv(v: Variant, s: Sys, j: nat)
    requires Inv(v, s) && Enabled(s, Add(j))
    ensures Inv(v, Apply(v, s, Add(j)))
  {
    var m := Markers(s);
    var s' := Apply(v, s, Add(j));
    var p' := s'.closers[j];
    Unpack(m, s.inFlight);
    CountUpdate(s.closers, j, p', Added);
    CountUpdate(s.closers, j, p', HoldsIncd);
    CountUpdate(s.closers, j, p', SampledClear);
    if s.closers[j].clear {
      CountWitness(s.closers, SampledClear, j);
      assert m + 1 <= 3;
      assert s'.word == Pack(m + 1, s.inFlight);
      Unpack(m + 1, s.inFlight);
      if m >= 1 {
        assert !p'.incd;
      }
    } else {
      assert m >= 1;
    }
    if Markers(s') == 0 {
      assert false;
    }
  }

  lemma FinishInv(v: Variant, s: Sys, j: nat)
    requires Inv(v, s) && Enabled(s, Finish(j))
    ensures Inv(v, Apply(v, s, Finish(j)))
  {
    var s' := Apply(v, s, Finish(j));
    var p' := s'.closers[j];
    CountUpdate(s.closers, j, p', Added);
    CountUpdate(s.closers, j, p', HoldsIncd);
    CountUpdate(s.closers, j, p', SampledClear);
  }

  lemma {:induction false} RunInv(v: Variant, s: Sys, steps: seq<Step>)
    requires Inv(v, s) && Run(v, s, steps).Some?
    ensures Inv(v, Run(v, s, steps).value)
    decreases |steps|
  {
    if steps != [] {
      StepInv(v, s, steps[0]);
      RunInv(v, Apply(v, s, steps[0]), steps[1..]);
    }
  }

  /**
   * In every run, with either variant and any number of close() calls: no
   * send is admitted once some close() has returned, and at most one closer
   * tears the stream down.
   */
  lemma SafeInEveryRun(v: Variant, n: nat, steps: seq<Step>)
    requires Run(v, Init(n), steps).Some?
    ensures Run(v, Init(n), steps).value.lateAdmits == 0
    ensures Teardowns(Run(v, Init(n), steps).value) <= 1
  {
    InitInv(v, n);
    RunInv(v, Init(n), steps);
    var s := Run(v, Init(n), steps).value;
    CountMonotone(s.closers, TornDown, HoldsIncd);
  }

  /** A closer can only leave its wait loop when no sender is in flight. */
  lemma FinishOnlyWhenNoSender(v: Variant, s: Sys, j: nat)
    requires Inv(v, s) && Enabled(s, Finish(j))
    ensures s.inFlight == 0
  {
  }

  /**
   * With the corrected result, once any close() has returned exactly one
   * closer holds the duty to tear the stream down.
   */
  lemma CorrectedOwnsTeardown(n: nat, steps: seq<Step>)
    requires Run(Corrected, Init(n), steps).Some?
    ensures var s := Run(Corrected, Init(n), steps).value;
            SomeCloseReturned(s) ==> Count(s.closers, HoldsIncd) == 1
  {
    InitInv(Corrected, n);
    RunInv(Corrected, Init(n), steps);
    var s := Run(Corrected, Init(n), steps).value;
    if SomeCloseReturned(s) && Markers(s) == 0 {
      CountNone(s.closers, Exited);
    }
  }

  /** A send in flight while the first close() adds its marker; the second close() is the destructor's. */
  const LostTeardownRun: seq<Step> := SendDuringClose + ([Finish(0)] + CloseCall(1))

  /** A send enters, closer 0 samples and adds its marker, and then the send exits. */
  const SendDuringClose: seq<Step> := [Enter, Read(0), Add(0), Exit]

  /** Where LostTeardownRun ends: both closers have returned, and only the corrected first one holds the teardown. */
  function LostTeardownEnd(v: Variant): Sys {
    Sys(SendStatusClosing, 0, [Closing(true, v == Corrected, true), Closing(false, false, true)], 0)
  }

  /** The closer's result for the sum C + 1 it gets while one send is in flight. */
  lemma JustClosedWithSenderInFlight(v: Variant)
    ensures JustClosed(v, SendStatusClosing + 1) == (v == Corrected)
  {
    Unpack(1, 1);
  }

  /** After SendDuringClose the marker is in the word and closer 0 waits with the result the variant gives it. */
  lemma SendDuringCloseTrace(v: Variant)
    ensures Run(v, Init(2), SendDuringClose)
            == Some(Sys(SendStatusClosing, 0, [Closing(true, v == Corrected, false), Idle], 0))
  {
    var c := SendStatusClosing;
    var incd := v == Corrected;
    Unpack(0, 1);
    Unpack(1, 0);
    JustClosedWithSenderInFlight(v);
    var ss := SendDuringClose;
    var s0 := Init(2);
    assert s0.closers == [Idle, Idle];
    CountNone(s0.closers, Added);
    CountNone(s0.closers, SampledClear);
    var s1 := Sys(1, 1, [Idle, Idle], 0);
    assert Apply(v, s0, Enter) == s1;
    var s2 := Sys(1, 1, [Sampled(true), Idle], 0);
    assert Apply(v, s1, Read(0)) == s2;
    var s3 := Sys(c + 1, 1, [Closing(true, incd, false), Idle], 0);
    assert Apply(v, s2, Add(0)) == s3;
    var s4 := Sys(c, 0, [Closing(true, incd, false), Idle], 0);
    assert Apply(v, s3, Exit) == s4;
    assert Run(v, s4, ss[4..]) == Some(s4);
    assert Run(v, s3, ss[3..]) == Some(s4);
    assert Run(v, s2, ss[2..]) == Some(s4);
    assert Run(v, s1, ss[1..]) == Some(s4);
  }

  lemma LostTeardownTrace(v: Variant)
    ensures Run(v, Init(2), LostTeardownRun) == Some(LostTeardownEnd(v))
  {
    var incd := v == Corrected;
    SendDuringCloseTrace(v);
    Unpack(1, 0);
    var s4 := Sys(SendStatusClosing, 0, [Closing(true, incd, false), Idle], 0);
    var s5 := s4.(closers := [Closing(true, incd, true), Idle]);
    assert Apply(v, s4, Finish(0)) == s5;
    assert Run(v, s4, [Finish(0)]) == Some(s5);
    LateClose(v, s5, 1);
    assert s5.closers[1 := Closing(false, false, true)] == LostTeardownEnd(v).closers;
    RunAppend(v, s4, [Finish(0)], CloseCall(1));
    RunAppend(v, Init(2), SendDuringClose, [Finish(0)] + CloseCall(1));
  }

  /**
   * A send in flight while close() adds the marker, followed by a second
   * close() (the destructor's): both close() calls return, and as written
   * neither tears the stream down; with the corrected result the first does.
   */
  lemma LostTeardown(v: Variant)
    ensures var r := Run(v, Init(2), LostTeardownRun);
            && r.Some?
            && Count(r.value.closers, Exited) == 2
            && Teardowns(r.value) == (if v == AsWritten then 0 else 1)
  {
    LostTeardownTrace(v);
    var ps := LostTeardownEnd(v).closers;
    assert ps[1..][1..] == [];
    assert TornDown(ps[0]) == (v == Corrected);
    assert !TornDown(ps[1]);
    assert Count(ps[1..], TornDown) == 0;
  }

  /** One close() call taken start to finish by closer j. */
  function CloseCall(j: nat): seq<Step> { [Read(j), Add(j), Finish(j)] }

  /** One close() that runs start to finish on a closed, drained stream: it adds nothing and returns. */
  lemma {:induction false} LateClose(v: Variant, s: Sys, j: nat)
    requires s.word == SendStatusClosing && j < |s.closers| && s.closers[j].Idle?
    ensures Run(v, s, CloseCall(j)) == Some(s.(closers := s.closers[j := Closing(false, false, true)]))
  {
    Unpack(1, 0);
    var s1 := s.(closers := s.closers[j := Sampled(false)]);
    var s2 := s.(closers := s.closers[j := Closing(false, false, false)]);
    assert s1.closers[j := Closing(false, false, false)] == s2.closers;
    assert s2.closers[j := Closing(false, false, true)] == s.closers[j := Closing(false, false, true)];
    var s3 := s.(closers := s.closers[j := Closing(false, false, true)]);
    assert Apply(v, s, Read(j)) == s1;
    assert Apply(v, s1, Add(j)) == s2;
    assert Apply(v, s2, Finish(j)) == s3;
    assert [Read(j), Add(j), Finish(j)][1..] == [Add(j), Finish(j)];
    assert [Add(j), Finish(j)][1..] == [Finish(j)];
    assert Run(v, s2, [Finish(j)]) == Some(s3);
    assert Run(v, s1, [Add(j), Finish(j)]) == Some(s3);
  }

  /** The first close() on an open stream with no send in flight: it adds the marker, closes the stream and returns. */
  lemma {:induction false} FirstClose(v: Variant, s: Sys, j: nat)
    requires s.word == 0 && j < |s.closers| && s.closers[j].Idle? && Racing(s) < 3
    ensures Run(v, s, CloseCall(j)) == Some(s.(word := SendStatusClosing, closers := s.closers[j := Closing(true, true, true)]))
  {
    Unpack(0, 0);
    Unpack(1, 0);
    var c := SendStatusClosing;
    var s1 := s.(closers := s.closers[j := Sampled(true)]);
    var s2 := s.(word := c, closers := s.closers[j := Closing(true, true, false)]);
    var s3 := s.(word := c, closers := s.closers[j := Closing(true, true, true)]);
    assert s1.closers[j := Closing(true, true, false)] == s2.closers;
    assert s2.closers[j := Closing(true, true, true)] == s3.closers;
    assert Apply(v, s, Read(j)) == s1;
    assert Apply(v, s1, Add(j)) == s2;
    assert Apply(v, s2, Finish(j)) == s3;
    assert [Read(j), Add(j), Finish(j)][1..] == [Add(j), Finish(j)];
    assert [Add(j), Finish(j)][1..] == [Finish(j)];
    assert Run(v, s2, [Finish(j)]) == Some(s3);
    assert Run(v, s1, [Add(j), Finish(j)]) == Some(s3);
  }

  /** Three close() calls and then the destructor's, one after another. */
  const SequentialClosesRun: seq<Step> := CloseCall(0) + (CloseCall(1) + (CloseCall(2) + CloseCall(3)))

  /** Where SequentialClosesRun ends: the first call added the marker and holds the teardown. */
  function SequentialClosesEnd(): Sys {
    var late := Closing(false, false, true);
    Sys(SendStatusClosing, 0, [Closing(true, true, true), late, late, late], 0)
  }

  /** The first of four closers finds the stream open and closes it. */
  lemma FirstOfFourCloses(v: Variant)
    ensures Run(v, Init(4), CloseCall(0))
            == Some(Sys(SendStatusClosing, 0, [Closing(true, true, true), Idle, Idle, Idle], 0))
  {
    var s0 := Init(4);
    assert s0.closers == [Idle, Idle, Idle, Idle];
    CountNone(s0.closers, Added);
    CountNone(s0.closers, SampledClear);
    FirstClose(v, s0, 0);
    assert s0.closers[0 := Closing(true, true, true)] == [Closing(true, true, true), Idle, Idle, Idle];
  }

  lemma SequentialClosesTrace(v: Variant)
    ensures Run(v, Init(4), SequentialClosesRun) == Some(SequentialClosesEnd())
  {
    var late := Closing(false, false, true);
    FirstOfFourCloses(v);
    var s1 := Sys(SendStatusClosing, 0, [Closing(true, true, true), Idle, Idle, Idle], 0);
    LateClose(v, s1, 1);
    var s2 := s1.(closers := [Closing(true, true, true), late, Idle, Idle]);
    assert s1.closers[1 := late] == s2.closers;
    LateClose(v, s2, 2);
    var s3 := s2.(closers := [Closing(true, true, true), late, late, Idle]);
    assert s2.closers[2 := late] == s3.closers;
    LateClose(v, s3, 3);
    assert s3.closers[3 := late] == SequentialClosesEnd().closers;
    RunAppend(v, s2, CloseCall(2), CloseCall(3));
    RunAppend(v, s1, CloseCall(1), CloseCall(2) + CloseCall(3));
    RunAppend(v, Init(4), CloseCall(0), CloseCall(1) + (CloseCall(2) + CloseCall(3)));
  }

  /** Four returned closers, of which only the first holds the teardown. */
  lemma SequentialClosesEndCounts()
    ensures Count(SequentialClosesEnd().closers, Exited) == 4
    ensures Teardowns(SequentialClosesEnd()) == 1
    ensures Markers(SequentialClosesEnd()) == 1
  {
    var late := Closing(false, false, true);
    var ps := SequentialClosesEnd().closers;
    assert ps[1..] == [late, late, late] && [late, late, late][1..] == [late, late];
    assert [late, late][1..] == [late] && [late][1..] == [];
  }

  /**
   * Four close() calls in sequence, more than may race at once, form a run
   * that SafeInEveryRun covers: with either variant the first call tears the
   * stream down and the other three change nothing.
   */
  lemma SequentialCloses(v: Variant)
    ensures var r := Run(v, Init(4), SequentialClosesRun);
            && r.Some?
            && Count(r.value.closers, Exited) == 4
            && Markers(r.value) == 1
            && Teardowns(r.value) == 1
  {
    SequentialClosesTrace(v);
    SequentialClosesEndCounts();
  }

  /** Running two pieces of a schedule one after the other is running the whole schedule. */
  lemma {:induction false} RunAppend(v: Variant, s: Sys, first: seq<Step>, rest: seq<Step>)
    requires Run(v, s, first).Some?
    ensures Run(v, s, first + rest) == Run(v, Run(v, s, first).value, rest)
    decreases |first|
  {
    if first == [] {
      assert first + rest == rest;
    } else {
      assert (first + rest)[0] == first[0];
      assert (first + rest)[1..] == first[1..] + rest;
      RunAppend(v, Apply(v, s, first[0]), first[1..], rest);
    }
  }
}

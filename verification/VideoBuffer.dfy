/**
 `VideoBuffer` and `Decoder::push` in their own form.  The decoder's code runs statement by statement; between any two
 statements, while it is blocked on the mutex and while it waits on the condition, the main thread takes steps as an
 arbitrary schedule dictates.  Everything the code does is a run of the transition system of VideoHandoff.dfy.
 */
module VideoBuffers {
  import opened VideoHandoff

  /** What the main thread does with its n-th turn: how many steps it takes, and whether it interrupts when idle. */
  datatype Turn = Turn(steps: nat, interrupts: bool)

  type Schedule = nat -> Turn

  /** Steps the main thread still takes before it gives the mutex back. */
  function HoldDistance(mpc: MainPc): nat {
    match mpc
    case Consume => 4
    case Wake => 3
    case Render => 2
    case UnlockAfterRender => 1
    case SetInterrupted => 2
    case UnlockAfterInterrupt => 1
    case _ => 0
  }

  lemma MainApproachesUnlock(s: State)
    requires Inv(s) && s.owner.MainOwns?
    ensures Enabled(s, MainActs)
    ensures var t := Next(s, MainActs);
      t.owner.Nobody? || (t.owner.MainOwns? && HoldDistance(t.mpc) < HoldDistance(s.mpc))
  {
    hide TallyOk, FramesOk, Totals;
  }

  lemma ReachPush(expired: bool, actions: seq<Action>, a: Action)
    ensures Reach(expired, actions + [a]) == Next(Reach(expired, actions), a)
  {
    RunPush(Start(expired), actions, a);
  }

  lemma {:induction false} RunPush(s: State, actions: seq<Action>, a: Action)
    ensures Run(s, actions + [a]) == Next(Run(s, actions), a)
    decreases |actions|
  {
    hide Next;
    if actions == [] {
      assert [] + [a] == [a];
      assert [a][1..] == [];
      assert Run(Next(s, a), []) == Next(s, a);
    } else {
      assert (actions + [a])[0] == actions[0] && (actions + [a])[1..] == actions[1..] + [a];
      RunPush(Next(s, actions[0]), actions[1..], a);
    }
  }

  /** What steps of the main thread leave alone. */
  predicate MainOnly(s: State, t: State) {
    && (!s.dpc.Wait? ==> t.dpc == s.dpc)
    && t.frames == s.frames && t.previousSkipped == s.previousSkipped && t.tally.offered == s.tally.offered
    && (s.consumed ==> t.consumed) && (s.interrupted ==> t.interrupted)
  }

  lemma MainStepOnly(s: State)
    requires Enabled(s, MainActs)
    ensures MainOnly(s, MainStep(s))
  {
  }

  lemma MainStepsOnly(s: State, a: Action)
    requires a.MainActs? || a.MainInterrupts?
    ensures MainOnly(s, Next(s, a))
  {
    hide MainStep, DecoderStep, Enabled;
    if a.MainActs? && Enabled(s, a) { MainStepOnly(s); }
  }

  lemma EnabledMeans(s: State)
    ensures Enabled(s, MainActs) <==>
      if s.mpc.Idle? then s.queued > 0
      else if s.mpc.LockToConsume? || s.mpc.LockToInterrupt? then s.owner.Nobody?
      else true
  {
  }

  lemma BlockedStays(s: State, a: Action)
    requires !Enabled(s, a)
    ensures Next(s, a) == s
  {
  }

  lemma HolderActs(s: State)
    requires Inv(s) && s.owner.MainOwns?
    ensures MainHolds(s)
  {
  }

  lemma DecoderTakesLock(s: State)
    requires Inv(s) && (s.dpc.Lock? || s.dpc.Relock?) && s.owner.Nobody?
    ensures Next(s, DecoderActs) == s.(owner := DecoderOwns, dpc := Check)
  {
  }

  lemma DecoderWaits(s: State)
    requires Inv(s) && s.dpc.Check? && s.expired && !s.consumed && !s.interrupted
    ensures Next(s, DecoderActs) == s.(owner := Nobody, dpc := Wait)
  {
  }

  predicate Swapping(s: State) { s.dpc.SwapTmp? || s.dpc.SwapDecoding? || s.dpc.SwapRendering? }

  function SwapNext(s: State): State {
    match s.dpc
    case SwapTmp => s.(frames := s.frames.(tmp := s.frames.decoding), dpc := SwapDecoding)
    case SwapDecoding => s.(frames := s.frames.(decoding := s.frames.rendering), dpc := SwapRendering)
    case _ => s.(frames := s.frames.(rendering := s.frames.tmp), dpc := Mark)
  }

  lemma DecoderSwaps(s: State)
    requires Inv(s) && Swapping(s)
    ensures Next(s, DecoderActs) == SwapNext(s)
  {
  }

  lemma DecoderPublishes(s: State)
    requires Inv(s) && (s.dpc.Mark? || s.dpc.Clear? || s.dpc.Unlock?)
    ensures Enabled(s, DecoderActs)
    ensures var t := Next(s, DecoderActs);
      && t.expired == s.expired && t.frames == s.frames && t.interrupted == s.interrupted && t.queued == s.queued && t.mpc == s.mpc
      && t.tally.skipped == s.tally.skipped && t.tally.rendered == s.tally.rendered
      && t.owner == (if s.dpc.Unlock? then Nobody else s.owner) && t.consumed == (s.consumed && !s.dpc.Clear?)
      && t.tally.offered == s.tally.offered + One(s.dpc.Clear?)
      && t.previousSkipped == (if s.dpc.Mark? then !s.consumed else s.previousSkipped)
      && t.dpc == if s.dpc.Mark? then Clear else if s.dpc.Clear? then Unlock else if s.previousSkipped then Decode else Emit
  {
  }

  lemma DecoderEmits(s: State)
    requires Inv(s) && s.dpc.Emit?
    ensures Enabled(s, DecoderActs) && Next(s, DecoderActs) == s.(queued := s.queued + 1, dpc := Decode)
  {
  }

  lemma DecoderDecodes(s: State)
    requires Inv(s) && s.dpc.Decode?
    ensures s.frames.pictures[s.frames.rendering] == s.tally.offered
    ensures Next(s, DecoderActs) == s.(frames := s.frames.(pictures := s.frames.pictures[s.frames.decoding := s.tally.offered + 1]), dpc := Lock)
  {
  }

  lemma WaitingHasTurn(s: State)
    requires Inv(s) && s.dpc.Wait?
    ensures Enabled(s, MainActs)
  {
    hide TallyOk, FramesOk, Totals;
  }

  /** Who can hold the mutex while the decoder asks for it. */
  lemma LockedByMain(s: State)
    requires Inv(s) && (s.dpc.Lock? || s.dpc.Relock?)
    ensures !s.owner.DecoderOwns?
  {
    hide TallyOk, FramesOk, Totals;
  }

  class VideoBuffer {
    const renderExpiredFrames: bool
    const pictures: array<nat>         // the two AVFrames
    var decodingFrame: nat
    var renderingFrame: nat
    var renderingFrameConsumed: bool
    var interrupted: bool
    var mutex: Owner
    var parked: bool                   // the decoder waits on the condition
    var fpsSkipped: nat
    var shown: seq<nat>                // what `m_onFrame` was given
    var queued: nat                    // posted `newFrame` events
    var main: MainPc
    const schedule: Schedule
    var turns: nat
    ghost var tmp: nat
    ghost var history: seq<Action>

    ghost function Now(): (s: State)
      reads this`history
      ensures Inv(s)
    {
      ReachInv(renderExpiredFrames, history);
      Reach(renderExpiredFrames, history)
    }

    ghost predicate MatchesFrames(f: Frames)
      reads this`decodingFrame, this`renderingFrame, this`tmp, pictures
    {
      pictures.Length == 2 && f == Frames(pictures[..], decodingFrame, renderingFrame, tmp)
    }

    ghost predicate MatchesRest(s: State)
      reads this`renderingFrameConsumed, this`interrupted, this`mutex, this`parked, this`fpsSkipped, this`shown, this`queued, this`main
    {
      && s.expired == renderExpiredFrames
      && s.consumed == renderingFrameConsumed && s.interrupted == interrupted
      && s.owner == mutex && s.dpc.Wait? == parked
      && s.tally.skipped == fpsSkipped && s.tally.rendered == shown
      && s.queued == queued && s.mpc == main
    }

    ghost predicate Matches(s: State)
      reads this, pictures
    {
      MatchesFrames(s.frames) && MatchesRest(s)
    }

    /** The fields are those of the state that the history leads to. */
    ghost predicate Valid()
      reads this, pictures
    {
      Matches(Now())
    }

    constructor (renderExpiredFrames: bool, schedule: Schedule)
      ensures Valid() && history == [] && fresh(pictures)
      ensures this.renderExpiredFrames == renderExpiredFrames && this.schedule == schedule
    {
      this.renderExpiredFrames, this.schedule := renderExpiredFrames, schedule;
      pictures := new nat[2](i => 0);
      decodingFrame, renderingFrame, tmp := 0, 1, 0;
      renderingFrameConsumed, interrupted := true, false;
      mutex, parked, fpsSkipped, shown, queued, main, turns := Nobody, false, 0, [], 0, Idle, 0;
      history := [];
      new;
      assert pictures[..] == [0, 0];
      assert Now() == Start(renderExpiredFrames);
    }

    /** Records the step that the code has just taken. */
    ghost method Did(a: Action)
      requires Matches(Next(Now(), a))
      modifies this`history
      ensures Valid() && history == old(history) + [a] && Now() == Next(old(Now()), a)
    {
      ReachPush(renderExpiredFrames, history, a);
      history := history + [a];
    }

    // ---- the main thread ----

    /** `wakeOne`. */
    method WakeOne()
      modifies this`parked
      ensures !parked
    {
      parked := false;
    }

    /** The next statement of `onNewFrame`, with that of `consumeRenderedFrame` inside it. */
    method OnNewFrame()
      requires Valid() && Enabled(Now(), MainActs)
      requires main.Idle? || main.LockToConsume? || main.Consume? || main.Wake? || main.Render? || main.UnlockAfterRender?
      modifies this`main, this`queued, this`mutex, this`renderingFrameConsumed, this`parked, this`shown, this`history
      ensures Valid() && Now() == Next(old(Now()), MainActs) && history == old(history) + [MainActs]
    {
      hide Reach, Run, Inv;
      match main {
        case Idle => queued, main := queued - 1, LockToConsume;
        case LockToConsume => mutex, main := MainOwns, Consume;
        case Consume => renderingFrameConsumed, main := true, Wake;
        case Wake =>
          if renderExpiredFrames { WakeOne(); }
          main := Render;
        case Render => shown, main := shown + [pictures[renderingFrame]], UnlockAfterRender;
        case UnlockAfterRender => mutex, main := Nobody, Idle;
      }
      Did(MainActs);
    }

    /** The next statement of `interrupt`. */
    method Interrupt()
      requires Valid() && Enabled(Now(), MainActs)
      requires main.LockToInterrupt? || main.SetInterrupted? || main.UnlockAfterInterrupt? || main.WakeAfterInterrupt?
      modifies this`main, this`mutex, this`interrupted, this`parked, this`history
      ensures Valid() && Now() == Next(old(Now()), MainActs) && history == old(history) + [MainActs]
    {
      hide Reach, Run, Inv;
      match main {
        case LockToInterrupt => mutex, main := MainOwns, SetInterrupted;
        case SetInterrupted => interrupted, main := true, UnlockAfterInterrupt;
        case UnlockAfterInterrupt => mutex, main := Nobody, WakeAfterInterrupt;
        case WakeAfterInterrupt =>
          WakeOne();
          main := Idle;
      }
      Did(MainActs);
    }

    /** One step of the main thread, if it has one: handling events, or starting an interrupt between events. */
    method MainTurn(interrupts: bool) returns (ghost a: Action)
      requires Valid()
      modifies this
      ensures Valid() && turns == old(turns) && old(history) <= history
      ensures (a.MainActs? || a.MainInterrupts?) && Now() == Next(old(Now()), a)
      ensures Enabled(old(Now()), MainActs) ==> Enabled(old(Now()), a)
    {
      hide Reach, Run, Inv, Next, Enabled;
      a := MainActs;
      EnabledMeans(Now());
      if main.Idle? && interrupts && renderExpiredFrames {
        a := MainInterrupts;
        StartInterrupt();
      } else if (main.Idle? && queued == 0) || ((main.LockToConsume? || main.LockToInterrupt?) && mutex != Nobody) {
        BlockedStays(Now(), MainActs);
      } else if main.LockToInterrupt? || main.SetInterrupted? || main.UnlockAfterInterrupt? || main.WakeAfterInterrupt? {
        Interrupt();
      } else {
        OnNewFrame();
      }
    }

    method StartInterrupt()
      requires Valid() && main.Idle? && renderExpiredFrames
      modifies this`main, this`history
      ensures Enabled(old(Now()), MainInterrupts)
      ensures Valid() && Now() == Next(old(Now()), MainInterrupts) && history == old(history) + [MainInterrupts]
    {
      hide Reach, Run, Inv;
      main := LockToInterrupt;
      Did(MainInterrupts);
    }

    /** Any number of main-thread steps, between two statements of the decoder. */
    method Interleave()
      requires Valid() && !Now().dpc.Wait?
      modifies this
      ensures Valid() && MainOnly(old(Now()), Now()) && old(history) <= history
      ensures Now().dpc == old(Now()).dpc && Now().frames == old(Now()).frames && Now().tally.offered == old(Now()).tally.offered
    {
      hide Reach, Run, Inv, Next, Enabled;
      var turn := schedule(turns);
      turns := turns + 1;
      var i := 0;
      while i < turn.steps
        invariant Valid() && !parked && MainOnly(old(Now()), Now()) && old(history) <= history
      {
        ghost var s := Now();
        ghost var a := MainTurn(turn.interrupts);
        MainStepsOnly(s, a);
        i := i + 1;
      }
    }

    // ---- the decoder thread ----

    /** `m_mutex.lock()`: the main thread runs on until it gives the mutex back. */
    method LockMutex()
      requires Valid() && (Now().dpc.Lock? || Now().dpc.Relock?)
      modifies this
      ensures Valid() && Now().dpc.Check? && old(history) <= history
      ensures Now().tally.offered == old(Now()).tally.offered
      ensures old(Now()).consumed || old(Now()).interrupted ==> Now().consumed || Now().interrupted
    {
      hide Reach, Run, Inv, Next, Enabled;
      Interleave();
      while mutex != Nobody
        invariant Valid() && MainOnly(old(Now()), Now()) && old(history) <= history && !parked
        decreases mutex != Nobody, HoldDistance(main)
      {
        ghost var s := Now();
        LockedByMain(s);
        MainApproachesUnlock(s);
        MainStepsOnly(s, MainActs);
        HolderActs(s);
        if main.SetInterrupted? || main.UnlockAfterInterrupt? { Interrupt(); } else { OnNewFrame(); }
      }
      ghost var s := Now();
      mutex := DecoderOwns;
      DecoderTakesLock(s);
      Did(DecoderActs);
    }

    /**
     `m_renderingFrameConsumedCond.wait(&m_mutex)`: the mutex is released and only the main thread runs, until it wakes
     the decoder.  That it does is the termination of this loop.
     */
    method WaitForConsumer()
      requires Valid() && Now().dpc.Check? && renderExpiredFrames && !renderingFrameConsumed && !interrupted
      modifies this
      ensures Valid() && Now().dpc.Check? && (renderingFrameConsumed || interrupted) && old(history) <= history
      ensures Now().tally.offered == old(Now()).tally.offered
    {
      hide Reach, Run, Inv, Next, Enabled;
      ghost var s := Now();
      mutex, parked := Nobody, true;
      DecoderWaits(s);
      Did(DecoderActs);
      while parked
        invariant Valid() && old(history) <= history && Now().tally.offered == s.tally.offered
        invariant if parked then Now().dpc.Wait? else Now().dpc.Relock? && (Now().consumed || Now().interrupted)
        decreases parked, WakeDistance(main)
      {
        ghost var t := Now();
        WaitingHasTurn(t);
        var turn := schedule(turns);
        turns := turns + 1;
        ghost var a := MainTurn(turn.interrupts);
        MainApproachesWakeup(t, a);
        MainStepsOnly(t, a);
      }
      LockMutex();
    }

    ghost method DidSwap()
      requires Swapping(Now()) && MatchesRest(Now()) && MatchesFrames(SwapNext(Now()).frames)
      modifies this`history
      ensures Valid() && Now() == SwapNext(old(Now())) && old(history) <= history
    {
      hide Reach, Run, Inv, Next, Enabled;
      DecoderSwaps(Now());
      Did(DecoderActs);
    }

    /** The three assignments of `swap`. */
    method Swap()
      requires Valid() && Now().dpc.SwapTmp?
      modifies this
      ensures Valid() && Now().dpc.Mark? && old(history) <= history
      ensures Now().tally.offered == old(Now()).tally.offered
      ensures decodingFrame == old(renderingFrame) && renderingFrame == old(decodingFrame)
    {
      hide Reach, Run, Inv, Next, Enabled, MatchesRest, MainOnly;
      var local := decodingFrame;
      tmp := local;
      DidSwap();
      Interleave();
      decodingFrame := renderingFrame;
      DidSwap();
      Interleave();
      renderingFrame := local;
      DidSwap();
    }

    /** The statements around the swap: everything but the two pointers. */
    ghost method DidRest()
      requires !Swapping(Now()) && !Now().dpc.Decode? && Enabled(Now(), DecoderActs)
      requires MatchesFrames(Now().frames) && MatchesRest(Next(Now(), DecoderActs))
      modifies this`history
      ensures Valid() && Now() == Next(old(Now()), DecoderActs) && old(history) <= history
    {
      hide Reach, Run, Inv, Enabled;
      Did(DecoderActs);
    }

    /**
     One more frame is published, after waiting for the last one to be consumed if expired frames are to be rendered.
     The answer is whether that frame was still unconsumed.
     */
    method OfferDecodedFrame() returns (previousFrameSkipped: bool)
      requires Valid() && Now().dpc.Lock?
      modifies this
      ensures Valid() && old(history) <= history
      ensures Now().dpc == (if previousFrameSkipped then Decode else Emit)
      ensures Now().tally.offered == old(Now()).tally.offered + 1
    {
      hide Reach, Run, Inv, Enabled, MatchesFrames, DecoderStep;
      LockMutex();
      if renderExpiredFrames {
        while !renderingFrameConsumed && !interrupted
          invariant Valid() && old(history) <= history && Now().dpc.Check? && Now().tally.offered == old(Now()).tally.offered
          decreases !renderingFrameConsumed && !interrupted
        {
          WaitForConsumer();
        }
      } else if !renderingFrameConsumed {
        fpsSkipped := fpsSkipped + 1;
      }
      CheckPassed();
      Swap();
      previousFrameSkipped := PreviousSkipped();
      Publish();
    }

    /** The condition of the wait, found false, or the count of a skipped frame. */
    ghost method CheckPassed()
      requires MatchesFrames(Now().frames) && Now().dpc.Check? && Now().expired == renderExpiredFrames
      requires renderExpiredFrames ==> renderingFrameConsumed || interrupted
      requires MatchesRest(Now().(tally := Now().tally.(skipped := Now().tally.skipped + One(!renderExpiredFrames && !renderingFrameConsumed))))
      modifies this`history
      ensures Valid() && Now().dpc.SwapTmp? && Now().tally.offered == old(Now()).tally.offered && old(history) <= history
    {
      hide Reach, Run, Inv;
      DidRest();
    }

    /** Whether the frame just swapped out was still unconsumed. */
    method PreviousSkipped() returns (previousFrameSkipped: bool)
      requires Valid() && Now().dpc.Mark?
      modifies this
      ensures Valid() && Now().dpc.Clear? && old(history) <= history
      ensures Now().previousSkipped == previousFrameSkipped
      ensures Now().tally.offered == old(Now()).tally.offered
    {
      hide Reach, Run, Inv, Next, Enabled, MatchesFrames;
      Interleave();
      DecoderPublishes(Now());
      previousFrameSkipped := !renderingFrameConsumed;
      DidRest();
    }

    /** The new rendering frame is unconsumed, and the mutex is released. */
    method Publish()
      requires Valid() && Now().dpc.Clear?
      modifies this
      ensures Valid() && old(history) <= history
      ensures Now().dpc == (if old(Now()).previousSkipped then Decode else Emit)
      ensures Now().tally.offered == old(Now()).tally.offered + 1
    {
      hide Reach, Run, Inv, Next, Enabled, MatchesFrames;
      Interleave();
      DecoderPublishes(Now());
      renderingFrameConsumed := false;
      DidRest();
      Interleave();
      DecoderPublishes(Now());
      mutex := Nobody;
      DidRest();
    }

    /** `pushFrame`: a notification is posted unless an earlier one is still to consume this frame. */
    method PushFrame()
      requires Valid() && Now().dpc.Lock?
      modifies this
      ensures Valid() && old(history) <= history && Now().dpc.Decode?
      ensures Now().tally.offered == old(Now()).tally.offered + 1
    {
      hide Reach, Run, Inv, Next, Enabled, MatchesFrames;
      var previousFrameSkipped := OfferDecodedFrame();
      Interleave();
      if previousFrameSkipped { return; }
      DecoderEmits(Now());
      queued := queued + 1;
      DidRest();
    }

    /** `push`, of a packet that completes a frame: the picture is decoded in place, then offered. */
    method Push()
      requires Valid() && Now().dpc.Decode?
      modifies this, pictures
      ensures Valid() && old(history) <= history && Now().dpc.Decode?
      ensures Now().tally.offered == old(Now()).tally.offered + 1
    {
      hide Reach, Run, Inv, Next, Enabled;
      Interleave();
      DecoderDecodes(Now());
      ghost var f := Now().frames;
      var number := pictures[renderingFrame] + 1;   // frames are numbered as they are decoded
      pictures[decodingFrame] := number;
      assert pictures[..] == f.pictures[f.decoding := number];
      Did(DecoderActs);
      Interleave();
      PushFrame();
    }
  }
}

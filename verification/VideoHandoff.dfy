/**
 The hand-off of decoded frames from the decoder thread to the main thread: `VideoBuffer`, `Decoder::pushFrame` and
 `Decoder::onNewFrame` as a transition system.  Each thread has a program counter, every shared access is a step of
 its own, and the two threads interleave in any way.  Frames are numbered in the order they are decoded.
 */
module VideoHandoff {

  datatype Owner = Nobody | DecoderOwns | MainOwns

  function One(b: bool): nat { if b then 1 else 0 }

  /** What the decoder thread does next.  `SwapTmp` to `SwapRendering` are the three assignments of `swap`. */
  datatype DecoderPc =
    | Decode | Lock | Check | Wait | Relock
    | SwapTmp | SwapDecoding | SwapRendering | Mark | Clear | Unlock | Emit

  /** What the main thread does next: handle a queued `newFrame`, or run `interrupt`. */
  datatype MainPc =
    | Idle | LockToConsume | Consume | Wake | Render | UnlockAfterRender
    | LockToInterrupt | SetInterrupted | UnlockAfterInterrupt | WakeAfterInterrupt

  /** The two frame buffers, and the pointers into them. */
  datatype Frames = Frames(pictures: seq<nat>, decoding: nat, rendering: nat, tmp: nat)

  type TwoFrames = f: Frames | |f.pictures| == 2 && f.decoding < 2 && f.rendering < 2 && f.tmp < 2
    witness Frames([0, 0], 0, 1, 0)

  /** Totals: frames published, frames shown, frames counted as skipped, frames overwritten unseen after an interrupt. */
  datatype Tally = Tally(offered: nat, rendered: seq<nat>, skipped: nat, overwritten: nat)

  /** `expired` is `m_renderExpiredFrames`; `queued` counts the posted `newFrame` events. */
  datatype State = State(
    expired: bool, dpc: DecoderPc, mpc: MainPc, owner: Owner, frames: TwoFrames,
    consumed: bool, interrupted: bool, previousSkipped: bool, queued: nat, tally: Tally)

  function Start(expired: bool): State {
    State(expired, Decode, Idle, Nobody, Frames([0, 0], 0, 1, 0), true, false, true, 0, Tally(0, [], 0, 0))
  }

  datatype Action = DecoderActs | SpuriousWakeup | MainActs | MainInterrupts

  predicate Enabled(s: State, a: Action) {
    match a
    case DecoderActs => if s.dpc.Lock? || s.dpc.Relock? then s.owner.Nobody? else !s.dpc.Wait?
    case SpuriousWakeup => s.dpc.Wait?
    case MainActs =>
      if s.mpc.Idle? then s.queued > 0
      else if s.mpc.LockToConsume? || s.mpc.LockToInterrupt? then s.owner.Nobody?
      else true
    case MainInterrupts => s.mpc.Idle?
  }

  function DecoderStep(s: State): State
  {
    match s.dpc
    case Decode => s.(frames := s.frames.(pictures := s.frames.pictures[s.frames.decoding := s.tally.offered + 1]), dpc := Lock)
    case Lock => s.(owner := DecoderOwns, dpc := Check)
    case Relock => s.(owner := DecoderOwns, dpc := Check)
    case Check =>
      if s.expired then
        if !s.consumed && !s.interrupted then s.(owner := Nobody, dpc := Wait) else s.(dpc := SwapTmp)
      else s.(tally := s.tally.(skipped := s.tally.skipped + One(!s.consumed)), dpc := SwapTmp)
    case Wait => s
    case SwapTmp => s.(frames := s.frames.(tmp := s.frames.decoding), dpc := SwapDecoding)
    case SwapDecoding => s.(frames := s.frames.(decoding := s.frames.rendering), dpc := SwapRendering)
    case SwapRendering => s.(frames := s.frames.(rendering := s.frames.tmp), dpc := Mark)
    case Mark => s.(previousSkipped := !s.consumed, dpc := Clear)
    case Clear =>
      var tally := s.tally.(offered := s.tally.offered + 1, overwritten := s.tally.overwritten + One(s.expired && !s.consumed));
      s.(consumed := false, tally := tally, dpc := Unlock)
    case Unlock => s.(owner := Nobody, dpc := if s.previousSkipped then Decode else Emit)
    case Emit => s.(queued := s.queued + 1, dpc := Decode)
  }

  /** `wakeOne`. */
  function WakeDecoder(s: State): State { if s.dpc.Wait? then s.(dpc := Relock) else s }

  function MainStep(s: State): State
    requires Enabled(s, MainActs)
  {
    match s.mpc
    case Idle => s.(queued := s.queued - 1, mpc := LockToConsume)
    case LockToConsume => s.(owner := MainOwns, mpc := Consume)
    case Consume => s.(consumed := true, mpc := Wake)
    case Wake => (if s.expired then WakeDecoder(s) else s).(mpc := Render)
    case Render => s.(tally := s.tally.(rendered := s.tally.rendered + [s.frames.pictures[s.frames.rendering]]), mpc := UnlockAfterRender)
    case UnlockAfterRender => s.(owner := Nobody, mpc := Idle)
    case LockToInterrupt => s.(owner := MainOwns, mpc := SetInterrupted)
    case SetInterrupted => s.(interrupted := true, mpc := UnlockAfterInterrupt)
    case UnlockAfterInterrupt => s.(owner := Nobody, mpc := WakeAfterInterrupt)
    case WakeAfterInterrupt => WakeDecoder(s).(mpc := Idle)
  }

  /** One step; an action that is not enabled is a thread that stays blocked. */
  function Next(s: State, a: Action): State
  {
    if !Enabled(s, a) then s
    else match a
      case DecoderActs => DecoderStep(s)
      case SpuriousWakeup => WakeDecoder(s)
      case MainActs => MainStep(s)
      case MainInterrupts => if s.expired then s.(mpc := LockToInterrupt) else s
  }

  // ---- the invariant ----

  predicate InSwap(s: State) { s.dpc.SwapTmp? || s.dpc.SwapDecoding? || s.dpc.SwapRendering? || s.dpc.Mark? || s.dpc.Clear? }

  predicate MainHolds(s: State) {
    s.mpc.Consume? || s.mpc.Wake? || s.mpc.Render? || s.mpc.UnlockAfterRender? || s.mpc.SetInterrupted? || s.mpc.UnlockAfterInterrupt?
  }

  /** The mutex. */
  predicate Exclusive(s: State) {
    && (s.owner.DecoderOwns? <==> InSwap(s) || s.dpc.Check? || s.dpc.Unlock?)
    && (s.owner.MainOwns? <==> MainHolds(s))
  }

  /** Which buffer is which, and where the newest published frame and the next one are. */
  predicate FramesOk(f: TwoFrames, dpc: DecoderPc, offered: nat) {
    && (if dpc.SwapRendering? then f.decoding == f.rendering != f.tmp else f.decoding != f.rendering)
    && (dpc.SwapDecoding? ==> f.tmp == f.decoding)
    && (dpc.Lock? || dpc.Check? || dpc.Wait? || dpc.Relock? || dpc.SwapTmp? ==> f.pictures[f.decoding] == offered + 1)
    && (dpc.SwapDecoding? || dpc.SwapRendering? ==> f.pictures[f.tmp] == offered + 1)
    && f.pictures[f.rendering] == if dpc.Mark? || dpc.Clear? then offered + 1 else offered
  }

  predicate Buffers(s: State) { FramesOk(s.frames, s.dpc, s.tally.offered) }

  /** Notifications on their way: about to be emitted, queued, or dispatched and not yet consumed. */
  function Outstanding(s: State): nat {
    One((s.dpc.Unlock? && !s.previousSkipped) || s.dpc.Emit?) + s.queued + One(s.mpc.LockToConsume? || s.mpc.Consume?)
  }

  predicate Notifications(s: State) {
    && Outstanding(s) == One(!s.consumed)
    && (s.dpc.Clear? ==> s.previousSkipped == !s.consumed)
    && (s.mpc.Wake? || s.mpc.Render? ==> s.consumed)
  }

  /** Every published frame is shown, skipped, overwritten, being shown, or waiting to be consumed. */
  predicate Totals(s: State) {
    && s.tally.offered + One(!s.expired && !s.consumed && InSwap(s))
       == |s.tally.rendered| + s.tally.skipped + s.tally.overwritten + One(!s.consumed) + One(s.mpc.Wake? || s.mpc.Render?)
    && (s.expired ==> s.tally.skipped == 0)
    && (!s.expired ==> s.tally.overwritten == 0 && !s.interrupted)
    && (s.expired && !s.interrupted ==> s.tally.overwritten == 0 && (InSwap(s) ==> s.consumed))
  }

  predicate Increasing(ns: seq<nat>) { forall i, j :: 0 <= i < j < |ns| ==> ns[i] < ns[j] }

  /**
   What has been shown: frames in publishing order, the last no later than the newest, and earlier than it while the
   newest is still to be shown; without a skip, all of them.
   */
  predicate TallyOk(t: Tally, newestToShow: bool) {
    && Increasing(t.rendered)
    && (forall i :: 0 <= i < |t.rendered| ==> 0 < t.rendered[i] <= t.offered && (newestToShow ==> t.rendered[i] < t.offered))
    && (t.skipped + t.overwritten == 0 ==> forall i :: 0 <= i < |t.rendered| ==> t.rendered[i] == i + 1)
  }

  predicate NewestToShow(s: State) { !s.consumed || s.mpc.Wake? || s.mpc.Render? }

  predicate Shown(s: State) { TallyOk(s.tally, NewestToShow(s)) }

  /** A wait is only entered with a wake-up due; `interrupt` and waiting exist only when expired frames are rendered. */
  predicate WakeupDue(s: State) {
    && (s.dpc.Wait? ==> if s.interrupted then s.mpc.UnlockAfterInterrupt? || s.mpc.WakeAfterInterrupt? else !s.consumed || s.mpc.Wake?)
    && (s.dpc.Wait? || s.dpc.Relock? || s.mpc.LockToInterrupt? || s.mpc.SetInterrupted? ==> s.expired)
    && (s.mpc.UnlockAfterInterrupt? || s.mpc.WakeAfterInterrupt? ==> s.interrupted)
  }

  predicate Inv(s: State) {
    Exclusive(s) && Buffers(s) && Notifications(s) && Totals(s) && Shown(s) && WakeupDue(s)
  }

  lemma StartInv(expired: bool)
    ensures Inv(Start(expired))
  {
  }

  /** The assertion of `consumeRenderedFrame` and its consequence: there is a published frame to consume. */
  lemma ConsumeAssertion(s: State)
    requires Inv(s) && s.mpc.Consume?
    ensures !s.consumed && s.tally.offered > 0 && !InSwap(s)
  {
  }

  lemma TallyStays(t: Tally, u: Tally, before: bool, after: bool)
    requires TallyOk(t, before) && u.rendered == t.rendered
    requires u.offered >= t.offered && u.skipped >= t.skipped && u.overwritten >= t.overwritten
    requires after ==> before || u.offered > t.offered
    ensures TallyOk(u, after)
  {
  }

  /** Showing the newest frame. */
  lemma TallyGrows(t: Tally)
    requires TallyOk(t, true) && t.offered > 0
    requires t.skipped + t.overwritten == 0 ==> t.offered == |t.rendered| + 1
    ensures TallyOk(t.(rendered := t.rendered + [t.offered]), false)
  {
  }

  lemma DecoderKeepsLocks(s: State)
    requires Exclusive(s) && Enabled(s, DecoderActs)
    ensures Exclusive(DecoderStep(s))
  {
  }

  lemma DecoderKeepsNotifications(s: State)
    requires Exclusive(s) && Notifications(s) && Enabled(s, DecoderActs)
    ensures Notifications(DecoderStep(s))
  {
  }

  lemma DecoderKeepsWakeups(s: State)
    requires Exclusive(s) && Notifications(s) && WakeupDue(s) && Enabled(s, DecoderActs)
    ensures WakeupDue(DecoderStep(s))
  {
  }

  lemma PictureDecoded(f: TwoFrames, offered: nat)
    requires FramesOk(f, Decode, offered)
    ensures FramesOk(f.(pictures := f.pictures[f.decoding := offered + 1]), Lock, offered)
  {
  }

  /** The three assignments of the swap, from the waiting picture in `decoding` to the same picture in `rendering`. */
  lemma SwapMoves(f: TwoFrames, offered: nat)
    ensures FramesOk(f, SwapTmp, offered) ==> FramesOk(f.(tmp := f.decoding), SwapDecoding, offered)
    ensures FramesOk(f, SwapDecoding, offered) ==> FramesOk(f.(decoding := f.rendering), SwapRendering, offered)
    ensures FramesOk(f, SwapRendering, offered) ==> FramesOk(f.(rendering := f.tmp), Mark, offered)
  {
  }

  /** Between swaps only the counters move. */
  lemma FramesRest(f: TwoFrames, offered: nat)
    ensures FramesOk(f, Lock, offered) || FramesOk(f, Relock, offered) ==> FramesOk(f, Check, offered)
    ensures FramesOk(f, Check, offered) ==> FramesOk(f, Wait, offered) && FramesOk(f, SwapTmp, offered)
    ensures FramesOk(f, Wait, offered) ==> FramesOk(f, Relock, offered)
    ensures FramesOk(f, Mark, offered) ==> FramesOk(f, Clear, offered)
    ensures FramesOk(f, Clear, offered) ==> FramesOk(f, Unlock, offered + 1)
    ensures FramesOk(f, Unlock, offered) ==> FramesOk(f, Emit, offered) && FramesOk(f, Decode, offered)
    ensures FramesOk(f, Emit, offered) ==> FramesOk(f, Decode, offered)
  {
  }

  lemma DecoderKeepsBuffers(s: State)
    requires Buffers(s) && Enabled(s, DecoderActs)
    ensures Buffers(DecoderStep(s))
  {
    hide FramesOk;
    if s.dpc.Decode? { PictureDecoded(s.frames, s.tally.offered); }
    SwapMoves(s.frames, s.tally.offered);
    FramesRest(s.frames, s.tally.offered);
  }

  lemma DecoderKeepsTotals(s: State)
    requires Exclusive(s) && Notifications(s) && Totals(s) && Shown(s) && Enabled(s, DecoderActs)
    ensures Totals(DecoderStep(s)) && Shown(DecoderStep(s))
  {
    hide TallyOk;
    var t := DecoderStep(s);
    TallyStays(s.tally, t.tally, NewestToShow(s), NewestToShow(t));
  }

  lemma MainKeepsLocks(s: State)
    requires Exclusive(s) && Enabled(s, MainActs)
    ensures Exclusive(MainStep(s))
  {
  }

  lemma MainKeepsNotifications(s: State)
    requires Exclusive(s) && Notifications(s) && Enabled(s, MainActs)
    ensures Notifications(MainStep(s))
  {
  }

  lemma MainKeepsWakeups(s: State)
    requires Exclusive(s) && Notifications(s) && WakeupDue(s) && Enabled(s, MainActs)
    ensures WakeupDue(MainStep(s))
  {
  }

  lemma MainKeepsBuffers(s: State)
    requires Buffers(s) && Enabled(s, MainActs)
    ensures Buffers(MainStep(s))
  {
    hide FramesOk;
    FramesRest(s.frames, s.tally.offered);
  }

  lemma MainKeepsTotals(s: State)
    requires Exclusive(s) && Buffers(s) && Notifications(s) && Totals(s) && Shown(s) && WakeupDue(s) && Enabled(s, MainActs)
    ensures Totals(MainStep(s)) && Shown(MainStep(s))
  {
    hide TallyOk;
    var t := MainStep(s);
    if s.mpc.Render? { TallyGrows(s.tally); } else { TallyStays(s.tally, t.tally, NewestToShow(s), NewestToShow(t)); }
  }

  lemma WakeKeeps(s: State)
    requires Inv(s) && s.dpc.Wait?
    ensures Inv(WakeDecoder(s))
  {
    hide TallyOk;
  }

  lemma InterruptKeeps(s: State)
    requires Inv(s) && s.mpc.Idle?
    ensures Inv(Next(s, MainInterrupts))
  {
    hide TallyOk, FramesOk;
  }

  lemma NextKeeps(s: State, a: Action)
    requires Inv(s)
    ensures Inv(Next(s, a))
  {
    hide TallyOk, FramesOk, Exclusive, Notifications, Totals, WakeupDue, DecoderStep;
    if Enabled(s, a) {
      match a
      case DecoderActs =>
        DecoderKeepsLocks(s);
        DecoderKeepsNotifications(s);
        DecoderKeepsWakeups(s);
        DecoderKeepsBuffers(s);
        DecoderKeepsTotals(s);
      case SpuriousWakeup => WakeKeeps(s);
      case MainActs => MainKeepsLocks(s); MainKeepsNotifications(s); MainKeepsWakeups(s); MainKeepsTotals(s); MainKeepsBuffers(s);
      case MainInterrupts => InterruptKeeps(s);
    }
  }

  // ---- every interleaving ----

  function Run(s: State, actions: seq<Action>): State
    decreases |actions|
  {
    if actions == [] then s else Run(Next(s, actions[0]), actions[1..])
  }

  function Reach(expired: bool, actions: seq<Action>): State { Run(Start(expired), actions) }

  lemma {:induction false} RunInv(s: State, actions: seq<Action>)
    requires Inv(s)
    ensures Inv(Run(s, actions))
    decreases |actions|
  {
    hide Inv, Next;
    if actions == [] {
    } else {
      NextKeeps(s, actions[0]);
      RunInv(Next(s, actions[0]), actions[1..]);
    }
  }

  /** The invariant holds in every interleaving. */
  lemma ReachInv(expired: bool, actions: seq<Action>)
    ensures Inv(Reach(expired, actions))
  {
    StartInv(expired);
    RunInv(Start(expired), actions);
  }

  /**
   In every interleaving exactly one notification is outstanding while the rendering frame is unconsumed, and none
   otherwise; so `consumeRenderedFrame` always finds an unconsumed, published frame.
   */
  lemma OneNotificationPerFrame(expired: bool, actions: seq<Action>)
    ensures var s := Reach(expired, actions);
      && Outstanding(s) == (if s.consumed then 0 else 1)
      && (s.mpc.Consume? ==> !s.consumed && s.tally.offered > 0 && s.frames.pictures[s.frames.rendering] == s.tally.offered)
  {
    hide Run;
    ReachInv(expired, actions);
    var s := Reach(expired, actions);
    if s.mpc.Consume? { ConsumeAssertion(s); }
  }

  /** While a picture is being shown, nothing the decoder does touches its buffer, and it decodes into the other one. */
  lemma ShownPictureIsStable(expired: bool, actions: seq<Action>)
    ensures var s := Reach(expired, actions);
      s.mpc.Wake? || s.mpc.Render? ==>
        var f, g := s.frames, Next(s, DecoderActs).frames;
        && g.rendering == f.rendering && g.pictures[g.rendering] == f.pictures[f.rendering]
        && f.decoding != f.rendering
  {
    hide Run;
    ReachInv(expired, actions);
    var s := Reach(expired, actions);
  }

  /** What is shown is always the newest frame published. */
  lemma ShowsTheNewest(expired: bool, actions: seq<Action>, a: Action)
    ensures var s := Reach(expired, actions);
      var t := Next(s, a);
      t.tally.rendered != s.tally.rendered ==> t.tally.rendered == s.tally.rendered + [s.tally.offered] && t.tally.offered == s.tally.offered
  {
    hide Run, TallyOk;
    ReachInv(expired, actions);
    var s := Reach(expired, actions);
  }

  predicate BetweenSwaps(s: State) { !InSwap(s) && !s.mpc.Wake? && !s.mpc.Render? }

  /** By default frames are shown in order, none twice, and every published frame is shown, skipped or still to be shown. */
  lemma DefaultModeAccounts(actions: seq<Action>)
    ensures var s := Reach(false, actions);
      && Increasing(s.tally.rendered)
      && (BetweenSwaps(s) ==> s.tally.offered == |s.tally.rendered| + s.tally.skipped + (if s.consumed then 0 else 1))
  {
    hide Run;
    ReachInv(false, actions);
    ModeIsFixed(Start(false), actions);
  }

  function Upto(n: nat): (ns: seq<nat>)
    ensures |ns| == n && forall i :: 0 <= i < n ==> ns[i] == i + 1
  {
    if n == 0 then [] else Upto(n - 1) + [n]
  }

  /** When expired frames are rendered and nothing interrupts, every published frame is shown, in order, save at most the last. */
  lemma ExpiredModeShowsAll(actions: seq<Action>)
    ensures var s := Reach(true, actions);
      !s.interrupted ==> s.tally.rendered == Upto(|s.tally.rendered|) && s.tally.offered - 1 <= |s.tally.rendered| <= s.tally.offered
  {
    hide Run;
    ReachInv(true, actions);
    ModeIsFixed(Start(true), actions);
  }

  lemma {:induction false} ModeIsFixed(s: State, actions: seq<Action>)
    ensures Run(s, actions).expired == s.expired
    decreases |actions|
  {
    hide Next;
    if actions == [] {
    } else {
      NextKeepsMode(s, actions[0]);
      ModeIsFixed(Next(s, actions[0]), actions[1..]);
    }
  }

  lemma NextKeepsMode(s: State, a: Action)
    ensures Next(s, a).expired == s.expired
  {
  }

  // ---- waiting ----

  /** Whenever one thread is blocked, on the mutex or on the condition, the other has a step to take. */
  lemma NobodyIsStuck(expired: bool, actions: seq<Action>)
    ensures var s := Reach(expired, actions);
      && (!Enabled(s, DecoderActs) ==> Enabled(s, MainActs))
      && (!Enabled(s, MainActs) && !s.mpc.Idle? ==> Enabled(s, DecoderActs))
  {
    hide Run;
    ReachInv(expired, actions);
    var s := Reach(expired, actions);
  }

  /** Main-thread steps that are left, at most, before a waiting decoder is woken. */
  function WakeDistance(mpc: MainPc): (d: nat)
    ensures d <= 7
  {
    match mpc
    case Wake => 1
    case Consume => 2
    case LockToConsume => 3
    case WakeAfterInterrupt => 1
    case UnlockAfterInterrupt => 2
    case SetInterrupted => 3
    case LockToInterrupt => 4
    case Idle => 5
    case UnlockAfterRender => 6
    case Render => 7
  }

  /** Whatever the main thread chooses to do, it wakes a waiting decoder or comes closer to it. */
  lemma MainApproachesWakeup(s: State, a: Action)
    requires Inv(s) && s.dpc.Wait? && Enabled(s, a) && (a.MainActs? || a.MainInterrupts?)
    ensures Next(s, a).dpc.Relock? ==> Next(s, a).consumed || Next(s, a).interrupted
    ensures Next(s, a).dpc.Relock? || (Next(s, a).dpc.Wait? && WakeDistance(Next(s, a).mpc) < WakeDistance(s.mpc))
  {
    hide TallyOk, FramesOk, Totals;
  }

  /** Each step is enabled when its turn comes and is one of the main thread's. */
  predicate MainRuns(s: State, actions: seq<Action>)
    decreases |actions|
  {
    actions != [] ==>
      && Enabled(s, actions[0]) && (actions[0].MainActs? || actions[0].MainInterrupts?)
      && MainRuns(Next(s, actions[0]), actions[1..])
  }

  /** No lost wake-up: a waiting decoder is woken within seven steps of the main thread, whatever they are. */
  lemma {:induction false} WaitEnds(s: State, actions: seq<Action>)
    requires Inv(s) && s.dpc.Wait? && MainRuns(s, actions) && |actions| >= WakeDistance(s.mpc)
    ensures exists n :: 0 < n <= |actions| && n <= WakeDistance(s.mpc) && Run(s, actions[..n]).dpc.Relock?
    decreases |actions|
  {
    hide Inv, Enabled;
    var a, rest := actions[0], actions[1..];
    NextKeeps(s, a);
    MainApproachesWakeup(s, a);
    var t := Next(s, a);
    if t.dpc.Relock? {
      assert actions[..1][1..] == [];
      assert Run(t, []) == t;
      assert Run(s, actions[..1]).dpc.Relock?;
    } else {
      WaitEnds(t, rest);
      var n :| 0 < n <= |rest| && n <= WakeDistance(t.mpc) && Run(t, rest[..n]).dpc.Relock?;
      assert actions[..n + 1][1..] == rest[..n];
    }
  }

  // ---- without the main thread ----

  function Alone(s: State, n: nat): State { if n == 0 then s else Next(Alone(s, n - 1), DecoderActs) }

  lemma {:induction false} WaitingAloneStays(s: State, n: nat)
    requires s.dpc.Wait?
    ensures Alone(s, n) == s
  {
    if n == 0 {
    } else {
      WaitingAloneStays(s, n - 1);
    }
  }

  lemma {:induction false} AloneTwice(s: State, n: nat, m: nat)
    ensures Alone(s, n + m) == Alone(Alone(s, n), m)
  {
    hide Next;
    if m == 0 {
    } else {
      AloneTwice(s, n, m - 1);
    }
  }

  /** The first step, then the others. */
  lemma {:induction false} AloneFirst(s: State, n: nat)
    ensures Alone(s, n + 1) == Alone(Next(s, DecoderActs), n)
  {
    hide Next;
    AloneTwice(s, 1, n);
    assert Alone(s, 1) == Next(Alone(s, 0), DecoderActs);
  }

  /** An idle main thread that stays out of the way leaves its program counter, the mode and the interrupt flag alone. */
  lemma {:induction false} AloneKeeps(s: State, n: nat)
    requires Inv(s)
    ensures var t := Alone(s, n); Inv(t) && t.mpc == s.mpc && t.expired == s.expired && t.interrupted == s.interrupted
  {
    hide Inv, Next;
    if n == 0 {
    } else {
      AloneKeeps(s, n - 1);
      NextKeeps(Alone(s, n - 1), DecoderActs);
      DecoderStepKeeps(Alone(s, n - 1));
    }
  }

  lemma DecoderStepKeeps(s: State)
    ensures var t := Next(s, DecoderActs); t.mpc == s.mpc && t.expired == s.expired && t.interrupted == s.interrupted
  {
  }

  // ---- a packet in hand ----

  /** The decoder must wait before it can publish the frame it has. */
  predicate MustWait(s: State) {
    (s.dpc.Lock? || s.dpc.Relock? || s.dpc.Check? || s.dpc.Wait?) && s.expired && !s.interrupted && !s.consumed
  }

  /** Decoder steps until `push` has returned, at most. */
  function StepsToDecode(dpc: DecoderPc): nat {
    match dpc
    case Lock => 9
    case Relock => 9
    case Check => 8
    case SwapTmp => 7
    case SwapDecoding => 6
    case SwapRendering => 5
    case Mark => 4
    case Clear => 3
    case Unlock => 2
    case Emit => 1
    case _ => 0
  }

  /** With the main thread idle, a decoder that need not wait comes closer to returning, and still need not wait. */
  lemma DecoderApproachesReturn(s: State)
    requires Inv(s) && s.mpc.Idle? && !s.dpc.Decode? && !MustWait(s)
    ensures var t := Next(s, DecoderActs);
      Inv(t) && t.mpc.Idle? && StepsToDecode(t.dpc) < StepsToDecode(s.dpc) && (t.dpc.Decode? || !MustWait(t))
  {
    hide TallyOk, FramesOk, Totals;
    NextKeeps(s, DecoderActs);
  }

  lemma {:induction false} PushReturns(s: State)
    requires Inv(s) && s.mpc.Idle? && !MustWait(s)
    ensures exists n: nat :: Alone(s, n).dpc.Decode?
    decreases StepsToDecode(s.dpc)
  {
    hide Inv, Next;
    if s.dpc.Decode? {
      assert Alone(s, 0).dpc.Decode?;
    } else {
      DecoderApproachesReturn(s);
      var t := Next(s, DecoderActs);
      PushReturns(t);
      var n: nat :| Alone(t, n).dpc.Decode?;
      AloneFirst(s, n);
    }
  }

  lemma {:induction false} PushHangs(s: State, n: nat)
    requires Inv(s) && s.mpc.Idle? && MustWait(s)
    ensures !Alone(s, n).dpc.Decode?
    decreases n
  {
    hide Inv, Next;
    if n == 0 {
    } else {
      StillMustWait(s);
      PushHangs(Next(s, DecoderActs), n - 1);
      AloneFirst(s, n - 1);
    }
  }

  lemma StillMustWait(s: State)
    requires Inv(s) && s.mpc.Idle? && MustWait(s)
    ensures var t := Next(s, DecoderActs); Inv(t) && t.mpc.Idle? && MustWait(t)
  {
    hide TallyOk, FramesOk, Totals;
    NextKeeps(s, DecoderActs);
  }

  /**
   `stopDecode` joins the demuxer thread from the main thread, which then takes no step.  From any reachable state the
   push in hand returns if and only if the decoder has not to wait for a frame that only the main thread can consume.
   */
  lemma JoinReturnsIff(expired: bool, actions: seq<Action>)
    ensures var s := Reach(expired, actions);
      s.mpc.Idle? ==> ((exists n: nat :: Alone(s, n).dpc.Decode?) <==> !MustWait(s))
  {
    hide Run, Inv;
    ReachInv(expired, actions);
    var s := Reach(expired, actions);
    if s.mpc.Idle? {
      if MustWait(s) {
        forall n: nat ensures !Alone(s, n).dpc.Decode? { PushHangs(s, n); }
      } else {
        PushReturns(s);
      }
    }
  }

  // ---- the main thread gets through ----

  /** The statements of `onNewFrame` and of `interrupt`, in program order. */
  const HANDLING: seq<MainPc> := [Idle, LockToConsume, Consume, Wake, Render, UnlockAfterRender, Idle]
  const INTERRUPTING: seq<MainPc> := [LockToInterrupt, SetInterrupted, UnlockAfterInterrupt, WakeAfterInterrupt, Idle]

  /** Steps of the main thread among the actions. */
  function Taken(s: State, actions: seq<Action>): nat
    decreases |actions|
  {
    if actions == [] then 0 else One(actions[0].MainActs? && Enabled(s, MainActs)) + Taken(Next(s, actions[0]), actions[1..])
  }

  /** Steps of the decoder leave the main thread where it is. */
  lemma DecoderLeavesMain(s: State, a: Action)
    requires a.DecoderActs? || a.SpuriousWakeup?
    ensures var t := Next(s, a); t.mpc == s.mpc && t.interrupted == s.interrupted && t.tally.rendered == s.tally.rendered
  {
  }

  lemma HandlingStep(s: State, a: Action, i: nat)
    requires a != MainInterrupts && i < 7 && s.mpc == HANDLING[i]
    ensures var t, k := Next(s, a), i + One(a.MainActs? && Enabled(s, MainActs));
      k < 7 ==> t.mpc == HANDLING[k] && |t.tally.rendered| == |s.tally.rendered| + One(i == 4 && k == 5)
  {
    hide DecoderStep;
    if !a.MainActs? {
      DecoderLeavesMain(s, a);
    } else if Enabled(s, MainActs) && i < 6 {
      hide Enabled;
      assert Next(s, a) == MainStep(s);
      assert i == 0 || i == 1 || i == 2 || i == 3 || i == 4 || i == 5;
    }
  }

  lemma {:induction false} HandlingRun(s: State, actions: seq<Action>, i: nat)
    requires MainInterrupts !in actions && i + Taken(s, actions) < 7 && s.mpc == HANDLING[i]
    ensures var t, k := Run(s, actions), i + Taken(s, actions);
      t.mpc == HANDLING[k] && |t.tally.rendered| == |s.tally.rendered| + One(i <= 4 && k >= 5)
    decreases |actions|
  {
    hide Next, Enabled;
    if actions == [] {
    } else {
      var a := actions[0];
      HandlingStep(s, a, i);
      HandlingRun(Next(s, a), actions[1..], i + One(a.MainActs? && Enabled(s, MainActs)));
    }
  }

  /** However the decoder runs in between, a posted notification is handled in six steps, and the fifth shows one picture. */
  lemma {:induction false} EventIsHandled(s: State, actions: seq<Action>)
    requires s.mpc.Idle? && MainInterrupts !in actions && Taken(s, actions) <= 6
    ensures var t, k := Run(s, actions), Taken(s, actions);
      t.mpc == HANDLING[k] && |t.tally.rendered| == |s.tally.rendered| + if k < 5 then 0 else 1
  {
    HandlingRun(s, actions, 0);
  }

  lemma InterruptingStep(s: State, a: Action, i: nat)
    requires a != MainInterrupts && i < 5 && s.mpc == INTERRUPTING[i] && (i >= 2 ==> s.interrupted)
    ensures var t, k := Next(s, a), i + One(a.MainActs? && Enabled(s, MainActs));
      k < 5 ==> t.mpc == INTERRUPTING[k] && (k >= 2 ==> t.interrupted)
  {
    hide DecoderStep;
    if !a.MainActs? {
      DecoderLeavesMain(s, a);
    } else if Enabled(s, MainActs) && i < 4 {
      hide Enabled;
      assert Next(s, a) == MainStep(s);
      assert i == 0 || i == 1 || i == 2 || i == 3;
    }
  }

  lemma {:induction false} InterruptingRun(s: State, actions: seq<Action>, i: nat)
    requires MainInterrupts !in actions && i + Taken(s, actions) < 5 && s.mpc == INTERRUPTING[i] && (i >= 2 ==> s.interrupted)
    ensures var t, k := Run(s, actions), i + Taken(s, actions); t.mpc == INTERRUPTING[k] && (k >= 2 ==> t.interrupted)
    decreases |actions|
  {
    hide Next, Enabled;
    if actions == [] {
    } else {
      var a := actions[0];
      InterruptingStep(s, a, i);
      InterruptingRun(Next(s, a), actions[1..], i + One(a.MainActs? && Enabled(s, MainActs)));
    }
  }

  /**
   When expired frames are rendered an interrupt takes four steps; then the flag is set, and the decoder neither waits nor
   will have to.
   */
  lemma {:induction false} InterruptIsDone(s: State, actions: seq<Action>)
    requires Inv(s) && s.expired && s.mpc.Idle? && MainInterrupts !in actions && Taken(Next(s, MainInterrupts), actions) <= 4
    ensures var t, k := Run(Next(s, MainInterrupts), actions), Taken(Next(s, MainInterrupts), actions);
      t.mpc == INTERRUPTING[k] && (k >= 2 ==> t.interrupted) && (k == 4 ==> !t.dpc.Wait? && !MustWait(t))
  {
    hide Run, TallyOk, FramesOk;
    var u := Next(s, MainInterrupts);
    NextKeeps(s, MainInterrupts);
    RunInv(u, actions);
    InterruptingRun(u, actions, 0);
  }

  // ---- packets for ever ----

  /** Decoder steps until it waits, at most, if expired frames are rendered and nothing interrupts. */
  function StepsToWait(dpc: DecoderPc, consumed: bool): nat {
    match dpc
    case Wait => 0
    case Check => if consumed then 11 else 1
    case Lock => if consumed then 12 else 2
    case Relock => if consumed then 12 else 2
    case Decode => if consumed then 13 else 3
    case Emit => if consumed then 14 else 4
    case Unlock => if consumed then 15 else 5
    case Clear => 6
    case Mark => 7
    case SwapRendering => 8
    case SwapDecoding => 9
    case SwapTmp => 10
  }

  lemma DecoderApproachesWait(s: State)
    requires Inv(s) && s.mpc.Idle? && s.expired && !s.interrupted && !s.dpc.Wait?
    ensures var t := Next(s, DecoderActs);
      && Inv(t) && t.mpc.Idle? && t.expired && !t.interrupted
      && StepsToWait(t.dpc, t.consumed) < StepsToWait(s.dpc, s.consumed)
  {
    hide TallyOk, FramesOk;
    NextKeeps(s, DecoderActs);
  }

  /** The decoder alone, given packet after packet, ends up waiting for good. */
  lemma {:induction false} AloneEndsWaiting(s: State, n: nat)
    requires Inv(s) && s.mpc.Idle? && s.expired && !s.interrupted && n >= StepsToWait(s.dpc, s.consumed)
    ensures Alone(s, n).dpc.Wait?
    decreases n
  {
    hide Inv, Next;
    if s.dpc.Wait? {
      WaitingAloneStays(s, n);
    } else {
      DecoderApproachesWait(s);
      AloneEndsWaiting(Next(s, DecoderActs), n - 1);
      AloneFirst(s, n - 1);
    }
  }

  /** Without the main thread a decoder that goes on pushing comes to wait if and only if nothing has interrupted the buffer. */
  lemma AloneWaitsIff(expired: bool, actions: seq<Action>)
    ensures var s := Reach(expired, actions);
      s.mpc.Idle? ==> ((exists n: nat :: Alone(s, n).dpc.Wait?) <==> s.expired && !s.interrupted)
  {
    hide Run, Inv;
    ReachInv(expired, actions);
    var s := Reach(expired, actions);
    if s.mpc.Idle? {
      if s.expired && !s.interrupted {
        AloneEndsWaiting(s, StepsToWait(s.dpc, s.consumed));
      } else {
        forall n: nat ensures !Alone(s, n).dpc.Wait? {
          AloneKeeps(s, n);
          WaitMeans(Alone(s, n));
        }
      }
    }
  }

  lemma WaitMeans(s: State)
    requires Inv(s) && s.mpc.Idle?
    ensures s.dpc.Wait? ==> s.expired && !s.interrupted
  {
  }

  /**
   An instance: from the start, as `disconnectDevice` joins before it interrupts, a decoder that renders expired frames
   publishes one frame and waits for good with the second.
   */
  lemma JoinBeforeInterruptHangs(n: nat)
    ensures Alone(Reach(true, []), 13 + n).dpc.Wait?
  {
    hide Inv, Alone, Next;
    StartInv(true);
    assert Reach(true, []) == Start(true);
    AloneEndsWaiting(Start(true), 13 + n);
  }
}

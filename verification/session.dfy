/**
 The recognition loop of `listen_forever` as a fold over the captured frames.
 The recognizer is an oracle: given every frame fed to it so far, it either
 reports a final transcript (already lower-cased) or nothing yet.
 */
module Session {
  import opened Wrappers
  import opened Gate
  import opened Grammar
  import opened Dispatch
  import Speech

  type Recognizer = seq<Frame> -> Option<string>

  /** What the loop has done so far: frames fed to the recognizer, effects issued, and whether it exited. */
  datatype Session = Session(fed: seq<Frame>, effects: seq<Effect>, exited: bool)

  /** The frames of `frames` that pass the gate, in arrival order. */
  function Forwarded(style: GateStyle, frames: seq<Frame>): (r: seq<Frame>)
    ensures |r| <= |frames|
    ensures forall i :: 0 <= i < |r| ==> !Drops(style, r[i])
  {
    if |frames| == 0 then []
    else
      var last := frames[|frames| - 1];
      Forwarded(style, frames[..|frames| - 1]) + (if Drops(style, last) then [] else [last])
  }

  /** Forwarding a run of frames in two parts forwards the first part's frames, then the second's. */
  lemma {:induction false} ForwardedAppend(style: GateStyle, a: seq<Frame>, b: seq<Frame>)
    ensures Forwarded(style, a + b) == Forwarded(style, a) + Forwarded(style, b)
    decreases |b|
  {
    if |b| == 0 {
      assert a + b == a;
    } else {
      var b' := b[..|b| - 1];
      assert (a + b)[..|a + b| - 1] == a + b' && (a + b)[|a + b| - 1] == b[|b| - 1];
      ForwardedAppend(style, a, b');
    }
  }

  /** Every frame that passes the gate is forwarded; those that do not are skipped. */
  lemma {:induction false} ForwardedExactly(style: GateStyle, frames: seq<Frame>)
    ensures forall f :: f in Forwarded(style, frames) <==> f in frames && !Drops(style, f)
    decreases |frames|
  {
    if |frames| > 0 {
      var init := frames[..|frames| - 1];
      ForwardedExactly(style, init);
      assert frames == init + [frames[|frames| - 1]];
    }
  }

  /** The loop has exited exactly when it has issued `sys.exit`, and that was its last effect. */
  ghost predicate Valid(s: Session) {
    && ExitLast(s.effects)
    && (s.exited <==> SysExit(0) in s.effects)
    && (s.exited ==> s.effects[|s.effects| - 1] == SysExit(0))
  }

  /** One pass of the `while True` body for the next frame from the audio queue. */
  function Step(loc: Locale, env: Env, recognize: Recognizer, s: Session, frame: Frame): Session {
    if s.exited || Drops(loc.gate, frame) then s
    else
      var fed := s.fed + [frame];
      match recognize(fed)
      case None => s.(fed := fed)
      case Some(text) =>
        var effs := Handle(loc, env, text);
        Session(fed, s.effects + effs, SysExit(0) in effs)
  }

  /** Appending a single effect list keeps the exit, if any, last. */
  lemma ValidAppend(s: Session, effs: seq<Effect>)
    requires Valid(s) && !s.exited
    requires ExitLast(effs) && (SysExit(0) in effs ==> effs[|effs| - 1] == SysExit(0))
    ensures Valid(Session(s.fed, s.effects + effs, SysExit(0) in effs))
  {
    var all := s.effects + effs;
    assert forall i :: 0 <= i < |s.effects| ==> !s.effects[i].SysExit?;
    forall i | 0 <= i < |all| && all[i].SysExit?
      ensures i == |all| - 1 && all[i].code == 0
    {
      assert i >= |s.effects| && all[i] == effs[i - |s.effects|];
    }
    assert SysExit(0) in effs ==> all[|all| - 1] == SysExit(0);
    assert SysExit(0) in all ==> SysExit(0) in effs;
  }

  lemma StepValid(loc: Locale, env: Env, recognize: Recognizer, s: Session, frame: Frame)
    requires Valid(s)
    ensures Valid(Step(loc, env, recognize, s, frame))
  {
    if !s.exited && !Drops(loc.gate, frame) {
      match recognize(s.fed + [frame])
      case None =>
      case Some(text) =>
        ValidAppend(s.(fed := s.fed + [frame]), Handle(loc, env, text));
    }
  }

  /**
   The loop over a run of frames. Only frames that pass the gate reach the
   recognizer, in arrival order; an exit is the last effect ever issued, and
   once the loop has exited no frame changes anything.
   */
  function Run(loc: Locale, env: Env, recognize: Recognizer, start: Session, frames: seq<Frame>): (r: Session)
    requires Valid(start)
    ensures Valid(r)
    ensures start.exited ==> r == start
    ensures |start.effects| <= |r.effects| && r.effects[..|start.effects|] == start.effects
    ensures r.fed <= start.fed + Forwarded(loc.gate, frames)
    ensures !r.exited ==> r.fed == start.fed + Forwarded(loc.gate, frames)
  {
    if |frames| == 0 then start
    else
      var prev := Run(loc, env, recognize, start, frames[..|frames| - 1]);
      var frame := frames[|frames| - 1];
      StepValid(loc, env, recognize, prev, frame);
      Step(loc, env, recognize, prev, frame)
  }

  /** `listen_forever`: without the speech model it returns at once; otherwise it greets and loops. */
  function ListenForever(loc: Locale, env: Env, modelReady: bool, recognize: Recognizer, frames: seq<Frame>): (r: Session)
    ensures !modelReady ==> r == Session([], [], false)
    ensures modelReady ==> |r.effects| > 0 && r.effects[0] == Speak(loc.ready)
    ensures Valid(r)
  {
    if !modelReady then Session([], [], false)
    else Run(loc, env, recognize, Session([], [Speak(loc.ready)], false), frames)
  }

  /** Frames arriving after the exit command are never looked at. */
  lemma {:induction false} NothingAfterExit(loc: Locale, env: Env, recognize: Recognizer, start: Session,
                                            frames: seq<Frame>, more: seq<Frame>)
    requires Valid(start)
    requires Run(loc, env, recognize, start, frames).exited
    ensures Run(loc, env, recognize, start, frames + more) == Run(loc, env, recognize, start, frames)
    decreases |more|
  {
    if |more| > 0 {
      var shorter := more[..|more| - 1];
      assert (frames + more)[..|frames + more| - 1] == frames + shorter;
      NothingAfterExit(loc, env, recognize, start, frames, shorter);
    } else {
      assert frames + more == frames;
    }
  }

  /** The replies a run of effects puts on the speech queue, in order. */
  function Replies(effs: seq<Effect>): (r: seq<string>)
    ensures |r| <= |effs|
  {
    if |effs| == 0 then []
    else (if effs[0].Speak? then [effs[0].text] else []) + Replies(effs[1..])
  }

  /**
   However far the speech worker gets before the process ends, what it has
   spoken is the session's first replies, in the order the loop issued them,
   and it has not stopped: nothing in the loop enqueues the sentinel.
   */
  lemma SessionSpokenPrefix(s: Session, n: nat)
    requires n <= |Replies(s.effects)|
    ensures Speech.Drain(Speech.QueueOf(Replies(s.effects))[..n]).0 == Replies(s.effects)[..n]
    ensures !Speech.Drain(Speech.QueueOf(Replies(s.effects))[..n]).1
  {
    var texts := Replies(s.effects);
    assert Speech.QueueOf(texts)[..n] == Speech.QueueOf(texts[..n]);
    Speech.SpokenInEnqueueOrder(texts[..n], []);
  }

  /**
   A session that is still running has every reply it issued spoken, in issue
   order, once the worker has had time to drain the queue. An exited session
   is not covered: `sys.exit` may end the worker before it reaches the goodbye.
   */
  lemma SessionSpokenInOrder(s: Session)
    requires !s.exited
    ensures Speech.Drain(Speech.QueueOf(Replies(s.effects))) == (Replies(s.effects), false)
  {
    Speech.SpokenInEnqueueOrder(Replies(s.effects), []);
  }
}

/**
 The speech queue: `speak` appends a reply, and one worker takes replies from
 the head, speaks each to completion, and stops at the `None` sentinel.
 */
module Speech {
  import opened Wrappers

  /** The queue's contents, oldest first; `None` is the sentinel. */
  type Queue = seq<Option<string>>

  /** `speak(text)`: the reply joins the back of the queue. */
  function Enqueue(q: Queue, text: string): (r: Queue)
    ensures |r| == |q| + 1 && r[..|q|] == q && r[|q|] == Some(text)
  {
    q + [Some(text)]
  }

  /** The queue after `speak` has been called with each of `texts`, in order, on an empty queue. */
  function QueueOf(texts: seq<string>): (q: Queue)
    ensures |q| == |texts|
    ensures forall i :: 0 <= i < |texts| ==> q[i] == Some(texts[i])
  {
    if |texts| == 0 then [] else Enqueue(QueueOf(texts[..|texts| - 1]), texts[|texts| - 1])
  }

  /**
   What the worker does with a queue: the texts it speaks, in order, and
   whether it met the sentinel and stopped (otherwise it waits for more).
   */
  function Drain(q: Queue): (r: (seq<string>, bool))
    ensures |r.0| <= |q|
    ensures forall j :: 0 <= j < |r.0| ==> q[j] == Some(r.0[j])
    ensures r.1 <==> |r.0| < |q|
    ensures r.1 ==> q[|r.0|] == None
  {
    if |q| == 0 then ([], false)
    else match q[0]
      case None => ([], true)
      case Some(text) =>
        var (rest, stopped) := Drain(q[1..]);
        ([text] + rest, stopped)
  }

  /** `tts_worker`: take from the head, stop at the sentinel, speak everything else in turn. */
  method TtsWorker(q: Queue) returns (spoken: seq<string>, stopped: bool)
    ensures |spoken| <= |q|
    ensures forall j :: 0 <= j < |spoken| ==> q[j] == Some(spoken[j])
    ensures stopped <==> |spoken| < |q|
    ensures stopped ==> q[|spoken|] == None
  {
    spoken := [];
    stopped := false;
    var i := 0;
    while i < |q|
      invariant 0 <= i <= |q| && |spoken| == i
      invariant forall j :: 0 <= j < i ==> q[j] == Some(spoken[j])
    {
      match q[i]
      case None =>
        stopped := true;
        return;
      case Some(text) =>
        spoken := spoken + [text];
        i := i + 1;
    }
  }

  /** The worker's outcome is fixed by the queue: any run of replies ending at the sentinel or the end is it. */
  lemma DrainDetermined(q: Queue, texts: seq<string>)
    requires |texts| <= |q|
    requires forall j :: 0 <= j < |texts| ==> q[j] == Some(texts[j])
    requires |texts| == |q| || q[|texts|] == None
    ensures Drain(q).0 == texts
    ensures Drain(q).1 <==> |texts| < |q|
  {
    var r := Drain(q).0;
    assert |r| == |texts|;
  }

  /**
   The worker speaks exactly what was enqueued, in the order it was enqueued,
   and nothing queued after the sentinel.
   */
  lemma SpokenInEnqueueOrder(texts: seq<string>, later: Queue)
    ensures Drain(QueueOf(texts) + [None] + later) == (texts, true)
    ensures Drain(QueueOf(texts)) == (texts, false)
  {
    var q := QueueOf(texts);
    DrainDetermined(q + [None] + later, texts);
    DrainDetermined(q, texts);
  }

  /** A queue without a sentinel is spoken in full; what is appended later follows it. */
  lemma DrainAppend(a: Queue, b: Queue)
    requires forall i :: 0 <= i < |a| ==> a[i].Some?
    ensures Drain(a + b).0 == Drain(a).0 + Drain(b).0
    ensures Drain(a + b).1 == Drain(b).1
  {
    var x, y := Drain(a).0, Drain(b).0;
    assert |x| == |a|;
    DrainDetermined(a + b, x + y);
  }
}

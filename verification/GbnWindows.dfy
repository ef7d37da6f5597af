/**
 * What the sender's window test is worth, and which windows are safe. The test compares two numbers
 * modulo the number of sequence numbers, so a full window looks empty; messages that never fill the
 * window are delivered when it holds. The window bound is safe exactly below that number.
 */
module GbnWindows {
  import opened GoBackN
  import opened GbnMessages

  // ----- the window test -----

  /** The sender's numbers count what is outstanding, up to whole rounds. */
  predicate Counted(n: nat, s: Sender)
    requires n > 0
  {
    s.current < n && s.lastAcked < n && (s.current - 1 - s.lastAcked - s.active) % n == 0
  }

  /** Numbers whose difference is a whole number of rounds have the same remainder. */
  lemma SameRemainder(x: int, y: int, n: nat)
    requires n > 0
    ensures x % n == y % n <==> (x - y) % n == 0
  {
    var q, p := x / n, y / n;
    assert x - y == n * (q - p) + (x % n - y % n);
    if x % n == y % n {
      assert x - y == (q - p) * n + 0;
      ModOf(q - p, 0, n);
    } else if (x - y) % n == 0 {
      assert x == n * ((x - y) / n) + y;
      assert x == ((x - y) / n + p) * n + y % n;
      ModOf((x - y) / n + p, y % n, n);
    }
  }

  lemma CountedInitially(n: nat)
    requires n >= 2
    ensures Counted(n, Initial(n).sender)
  {
    var s := Initial(n).sender;
    OneMod(n);
    ModRound(-1, n);
    SameRemainder(-1, s.lastAcked, n);
    ModMove(-1, 0, n);
    assert s.lastAcked == (-1) % n;
  }

  lemma CountedAdd(n: nat, s: Sender, b: char)
    requires n >= 2 && Counted(n, s) && |s.window| == n
    ensures Counted(n, Added(n, s, b))
  {
    var t := Added(n, s, b);
    ModRound((s.current + 1) % n, n);
    ModMove(s.current + 1, 0, n);
    assert t.current == (s.current + 1) % n;
    SameRemainder(t.current, s.current + 1, n);
    var d := s.current - 1 - s.lastAcked - s.active;
    ModMove(t.current - (s.current + 1), d, n);
    assert t.current - 1 - t.lastAcked - t.active == t.current - (s.current + 1) + d;
  }

  lemma CountedRemove(n: nat, s: Sender, ack: nat)
    requires n >= 2 && Counted(n, s) && ack < n
    ensures Counted(n, Removed(n, s, ack))
  {
    var t := Removed(n, s, ack);
    var k := Deleting(n, s, ack);
    ModSmall(s.lastAcked, n);
    ModRound(ack - s.lastAcked, n);
    assert k == (ack - s.lastAcked) % n;
    ModMove(ack - s.lastAcked, 0, n);
    SameRemainder(k, ack - s.lastAcked, n);
    var d := s.current - 1 - s.lastAcked - s.active;
    ModMove(k - (ack - s.lastAcked), d, n);
    assert t.current - 1 - t.lastAcked - t.active == k - (ack - s.lastAcked) + d;
  }

  /** The window test holds exactly when what is outstanding makes whole rounds. */
  lemma TestIsRounds(n: nat, s: Sender)
    requires n >= 2 && Counted(n, s)
    ensures WindowEmpty(n, s) <==> s.active % n == 0
  {
    OneMod(n);
    ModRound(s.current - 1, n);
    ModSmall(s.lastAcked, n);
    assert WindowEmpty(n, s) <==> s.lastAcked % n == (s.current - 1) % n;
    SameRemainder(s.current - 1, s.lastAcked, n);
    SameRemainder(s.current - 1 - s.lastAcked, s.active, n);
  }

  /** Whatever the sender puts, sends again and hears, its numbers go on counting. */
  lemma {:induction false} CountedAfter(n: nat, s: Sender, events: seq<Event>)
    requires n >= 2 && Counted(n, s) && |s.window| == n
    requires forall a: nat :: Acked(a) in Heard(events) ==> a < n
    ensures Counted(n, SenderAfter(n, s, events))
    decreases |events|
  {
    hide Counted, Added, Removed;
    if events != [] {
      var front, e := events[..|events| - 1], events[|events| - 1];
      CountedAfter(n, s, front);
      var t := SenderAfter(n, s, front);
      match e
      case Put(b) => CountedAdd(n, t, b);
      case Resend =>
      case TakeFrom(a) =>
        assert Heard(events)[|Heard(front)|] == Acked(a);
        CountedRemove(n, t, a);
    }
  }

  /** After any call of Client.SendMessage that heard sequence numbers, the window test is right up to whole rounds. */
  lemma TestAfterEvents(n: nat, s: Sender, events: seq<Event>)
    requires n >= 2 && Counted(n, s) && |s.window| == n
    requires forall a: nat :: Acked(a) in Heard(events) ==> a < n
    ensures var t := SenderAfter(n, s, events); Counted(n, t) && (WindowEmpty(n, t) <==> t.active % n == 0)
  {
    CountedAfter(n, s, events);
    TestIsRounds(n, SenderAfter(n, s, events));
  }

  /** Numbers in the receiver's hands and on their way back are sequence numbers. */
  predicate InRange(n: nat, s: System)
    requires n > 0
  {
    |s.sender.window| == n && Counted(n, s.sender) && s.receiver.lastSentAck < n && forall i :: 0 <= i < |s.acks| ==> s.acks[i] < n
  }

  lemma InRangeStep(n: nat, w: nat, s: System, step: Step)
    requires n >= 2 && InRange(n, s) && Enabled(w, s, step)
    ensures InRange(n, Apply(n, w, s, step))
  {
    hide Counted, Added, Removed, Deleting, Resent;
    match step
    case Add(b) =>
      CountedAdd(n, s.sender, b);
      AddedWindow(n, s.sender, b);
    case TakeAck =>
      CountedRemove(n, s.sender, s.acks[0]);
      RemovedWindow(n, s.sender, s.acks[0]);
    case _ =>
  }

  lemma AddedWindow(n: nat, s: Sender, b: char)
    requires n > 0
    ensures |Added(n, s, b).window| == |s.window|
  {
  }

  lemma RemovedWindow(n: nat, s: Sender, ack: nat)
    requires n > 0
    ensures Removed(n, s, ack).window == s.window
  {
  }

  lemma {:induction false} RunInRange(n: nat, w: nat, steps: seq<Step>)
    requires n >= 2
    ensures InRange(n, After(n, w, steps))
    decreases |steps|
  {
    hide Apply, InRange, Enabled, Initial;
    if steps == [] {
      StartInRange(n);
    } else {
      var front := steps[..|steps| - 1];
      RunInRange(n, w, front);
      var s := After(n, w, front);
      if |s.sender.window| == n && Enabled(w, s, steps[|steps| - 1]) {
        InRangeStep(n, w, s, steps[|steps| - 1]);
      }
    }
  }

  lemma StartInRange(n: nat)
    requires n >= 2
    ensures InRange(n, Initial(n))
  {
    CountedInitially(n);
    WindowAtStart(n);
  }

  /** In every run, whatever its bound: the window looks empty exactly when a multiple of n datagrams is outstanding. */
  lemma WindowTestExactly(n: nat, w: nat, steps: seq<Step>)
    requires n >= 2
    ensures var s := After(n, w, steps).sender; WindowEmpty(n, s) <==> s.active % n == 0
  {
    RunInRange(n, w, steps);
    TestIsRounds(n, After(n, w, steps).sender);
  }

  /**
   * A full window looks empty: after n bytes and a timeout nothing has been accepted, n datagrams
   * are outstanding, and the sender takes its message for delivered.
   */
  lemma FullWindowLooksEmpty(n: nat)
    requires n >= 2
    ensures var steps := Adds(n) + [Timeout]; var s := After(n, n, steps);
            && IsRun(n, n, steps) && WindowEmpty(n, s.sender) && s.sender.active == n
            && s.given == Bytes(n) && s.accepted == []
  {
    hide After, IsRun, SenderAt, Resent, WindowEmpty;
    WindowFills(n, n);
    var s := After(n, n, Adds(n));
    SenderLength(n, s.sender, s.given, 0);
    RunLonger(n, n, Adds(n), Timeout);
    WindowTestExactly(n, n, Adds(n) + [Timeout]);
    ModOf(1, 0, n);
  }

  // ----- messages that do not fill the window -----

  /**
   * A message ends when the window looks empty. If no message has as many bytes as there are
   * numbers, and no acknowledgement was taken early, all bytes given by then have been accepted.
   */
  lemma ShortMessagesDelivered(n: nat, messages: seq<seq<Step>>)
    requires n >= 2 && ShortMessages(n, messages) && IsRun(n, n, Flat(messages))
    requires forall k :: 0 <= k < |Flat(messages)| ==> !EarlyAt(n, n, Flat(messages), k)
    ensures var s := After(n, n, Flat(messages));
            && (WindowEmpty(n, s.sender) <==> s.sender.active == 0)
            && (WindowEmpty(n, s.sender) ==> s.accepted == s.given == PutBytes(Share(n, n, Flat(messages))))
  {
    hide After, IsRun, EarlyAt, WindowEmpty, Inv;
    TameMessages(n, messages);
    EmptyWindowMeansDelivered(n, n - 1, After(n, n, Flat(messages)));
    SenderShare(n, n, Flat(messages));
  }

  // ----- which bounds are safe -----

  ghost predicate NoEarly(n: nat, w: nat, steps: seq<Step>)
    requires n > 0
  {
    forall k :: 0 <= k < |steps| ==> !EarlyAt(n, w, steps, k)
  }

  ghost predicate SafeThroughout(n: nat, w: nat, steps: seq<Step>)
    requires n > 0
  {
    forall k :: 0 <= k <= |steps| ==> Safe(After(n, w, steps[..k]))
  }

  /** A run under one bound is the same run under any larger one. */
  lemma {:induction false} WiderRun(n: nat, w: nat, w': nat, steps: seq<Step>)
    requires n >= 2 && w <= w' && IsRun(n, w, steps)
    ensures IsRun(n, w', steps) && After(n, w', steps) == After(n, w, steps)
    decreases |steps|
  {
    hide After, Apply, Initial;
    if steps == [] {
      NothingYet(n, w);
      NothingYet(n, w');
    } else {
      var front, step := steps[..|steps| - 1], steps[|steps| - 1];
      PrefixIsRun(n, w, steps, |steps| - 1);
      WiderRun(n, w, w', front);
      assert steps == front + [step];
      RunInRange(n, w, front);
      assert Enabled(w, After(n, w, front), step);
      RunLonger(n, w, front, step);
      RunLonger(n, w', front, step);
      SameApply(n, w, w', After(n, w, front), step);
    }
  }

  lemma SameApply(n: nat, w: nat, w': nat, s: System, step: Step)
    requires n > 0 && |s.sender.window| == n && Enabled(w, s, step) && Enabled(w', s, step)
    ensures Apply(n, w, s, step) == Apply(n, w', s, step)
  {
    hide Resent, Received, Added, Removed, Deleting;
  }

  /** Some run that takes no acknowledgement early is unsafe as soon as the bound allows n outstanding datagrams. */
  lemma WideBoundFails(n: nat, w: nat) returns (steps: seq<Step>)
    requires n >= 2 && w >= n
    ensures IsRun(n, w, steps) && NoEarly(n, w, steps) && !SafeThroughout(n, w, steps)
  {
    hide After, IsRun, Safe;
    steps := Adds(n) + Receives(n) + [Timeout] + [Receive(false)];
    FullWindowFails(n);
    WiderRun(n, n, w, steps);
    forall k | 0 <= k < |steps| ensures !EarlyAt(n, w, steps, k) {
      assert steps[k] in steps;
    }
    assert steps[..|steps|] == steps;
  }

  /**
   * The bounds under which every run that takes no acknowledgement before the first acceptance is
   * safe throughout are exactly those below the number of sequence numbers.
   */
  lemma SafeBoundsExactly(n: nat, w: nat)
    requires n >= 2
    ensures (forall steps :: IsRun(n, w, steps) && NoEarly(n, w, steps) ==> SafeThroughout(n, w, steps)) <==> w < n
  {
    hide IsRun, After, Safe, EarlyAt;
    if w < n {
      forall steps | IsRun(n, w, steps) && NoEarly(n, w, steps) ensures SafeThroughout(n, w, steps) {
        SafeExactly(n, w, steps);
      }
    } else {
      var steps := WideBoundFails(n, w);
    }
  }
}

/**
 * Runs made of messages. The sender's own bound on outstanding datagrams is the number of sequence
 * numbers, which is one too many; a message shorter than that keeps the run under the bound that
 * safety needs, because each message starts with an empty window.
 */
module GbnMessages {
  import opened GoBackN

  function CountAdds(steps: seq<Step>): nat {
    if steps == [] then 0
    else CountAdds(steps[..|steps| - 1]) + if steps[|steps| - 1].Add? then 1 else 0
  }

  function Flat(messages: seq<seq<Step>>): seq<Step> {
    if messages == [] then [] else Flat(messages[..|messages| - 1]) + messages[|messages| - 1]
  }

  /** Each message adds fewer bytes than there are numbers, and starts when the window looks empty. */
  predicate ShortMessages(n: nat, messages: seq<seq<Step>>)
    requires n > 0
  {
    messages == [] ||
    (var front := messages[..|messages| - 1];
     && ShortMessages(n, front) && CountAdds(messages[|messages| - 1]) < n
     && WindowEmpty(n, After(n, n, Flat(front)).sender))
  }

  /** The sender's event, if any, in one step. */
  function EventsOf(s: System, step: Step): seq<Event> {
    match step
    case Add(b) => [Put(b)]
    case Timeout => [Resend]
    case TakeAck => if s.acks == [] then [] else [TakeFrom(s.acks[0])]
    case _ => []
  }

  /** The sender's share of a run, as Client.SendMessage reports it. */
  function Share(n: nat, w: nat, steps: seq<Step>): seq<Event>
    requires n > 0
  {
    if steps == [] then []
    else
      var front := steps[..|steps| - 1];
      Share(n, w, front) + EventsOf(After(n, w, front), steps[|steps| - 1])
  }

  lemma ShareOfStep(n: nat, w: nat, start: Sender, s: System, step: Step, events: seq<Event>)
    requires n > 0 && |start.window| == n && Enabled(w, s, step)
    requires s.sender == SenderAfter(n, start, events) && Allowed(n, w, start, events) && s.given == PutBytes(events)
    ensures |s.sender.window| == n
    ensures var t, more := Apply(n, w, s, step), events + EventsOf(s, step);
            && t.sender == SenderAfter(n, start, more) && Allowed(n, w, start, more) && t.given == PutBytes(more)
            && |t.given| == |s.given| + if step.Add? then 1 else 0
  {
    hide Added, Removed, Deleting, Resent, Received, Valid, PutBytes, SenderAfter, Allowed, SentDuring, Heard;
    if EventsOf(s, step) == [] {
      assert events + [] == events;
    } else {
      OneMoreEvent(n, w, start, events, EventsOf(s, step)[0]);
    }
  }

  /** In a run, the sender moves as its events say, and is given exactly the bytes they put. */
  lemma {:induction false} SenderShare(n: nat, w: nat, steps: seq<Step>)
    requires n > 0 && IsRun(n, w, steps)
    ensures var s, events := After(n, w, steps), Share(n, w, steps);
            && |s.sender.window| == n && s.sender == SenderAfter(n, Initial(n).sender, events)
            && s.given == PutBytes(events) && CountAdds(steps) == |PutBytes(events)|
            && Allowed(n, w, Initial(n).sender, events)
    decreases |steps|
  {
    WindowAtStart(n);
    NoEvents(n, w, Initial(n).sender);
    hide Apply, EventsOf, Initial, PutBytes, SenderAfter, Allowed;
    if steps == [] {
      NothingYet(n, w);
    } else {
      var front, step := steps[..|steps| - 1], steps[|steps| - 1];
      PrefixIsRun(n, w, steps, |steps| - 1);
      SenderShare(n, w, front);
      var s := After(n, w, front);
      assert Enabled(w, s, step);
      ShareOfStep(n, w, Initial(n).sender, s, step, Share(n, w, front));
    }
  }

  lemma WindowAtStart(n: nat)
    requires n > 0
    ensures |Initial(n).sender.window| == n && Initial(n).given == []
  {
  }

  /** Under the smaller bound the steps are the same run, in the invariant, with at most this many outstanding. */
  ghost predicate Tame(n: nat, steps: seq<Step>, most: int)
    requires n >= 2
  {
    && IsRun(n, n - 1, steps) && After(n, n - 1, steps) == After(n, n, steps)
    && Inv(n, n - 1, After(n, n, steps)) && After(n, n, steps).sender.active <= most
  }

  lemma StepActive(n: nat, s: System, step: Step)
    requires n > 0 && |s.sender.window| == n && Enabled(n, s, step)
    ensures Apply(n, n, s, step).sender.active <= s.sender.active + if step.Add? then 1 else 0
  {
    hide Resent, Received;
  }

  lemma SameStep(n: nat, s: System, step: Step)
    requires n > 0 && |s.sender.window| == n && Enabled(n, s, step) && Enabled(n - 1, s, step)
    ensures Apply(n, n - 1, s, step) == Apply(n, n, s, step)
  {
    hide Resent, Received, Added, Removed, Deleting;
  }

  /** One step on. */
  lemma TameStep(n: nat, steps: seq<Step>, step: Step, most: int)
    requires n >= 2 && Tame(n, steps, most) && IsRun(n, n, steps + [step])
    requires step.Add? ==> most < n - 1
    requires !EarlyAt(n, n, steps + [step], |steps|)
    ensures Tame(n, steps + [step], most + if step.Add? then 1 else 0)
  {
    hide Apply, Inv, After, Initial;
    var all, s := steps + [step], After(n, n, steps);
    assert all[..|steps|] == steps && all[|steps|] == step;
    InvWindow(n, n - 1, s);
    assert Enabled(n, s, step) && Enabled(n - 1, s, step);
    StepKeeps(n, n - 1, s, step);
    StepActive(n, s, step);
    SameStep(n, s, step);
    PrefixIsRun(n, n, all, |steps|);
    RunLonger(n, n, steps, step);
    RunLonger(n, n - 1, steps, step);
  }

  lemma {:induction false} TameMessage(n: nat, before: seq<Step>, message: seq<Step>)
    requires n >= 2 && Tame(n, before, 0) && CountAdds(message) < n && IsRun(n, n, before + message)
    requires forall k :: 0 <= k < |before + message| ==> !EarlyAt(n, n, before + message, k)
    ensures Tame(n, before + message, CountAdds(message))
    decreases |message|
  {
    hide Tame, After, EarlyAt;
    if message == [] {
      assert before + message == before;
    } else {
      var front, step := message[..|message| - 1], message[|message| - 1];
      var all := before + message;
      assert all[..|all| - 1] == before + front && all == (before + front) + [step];
      PrefixIsRun(n, n, all, |all| - 1);
      forall k | 0 <= k < |before + front| ensures !EarlyAt(n, n, before + front, k) {
        assert EarlyAt(n, n, all[..|all| - 1], k) == EarlyAt(n, n, all, k);
      }
      TameMessage(n, before, front);
      TameStep(n, before + front, step, CountAdds(front));
    }
  }

  lemma {:induction false} TameMessages(n: nat, messages: seq<seq<Step>>)
    requires n >= 2 && ShortMessages(n, messages) && IsRun(n, n, Flat(messages))
    requires forall k :: 0 <= k < |Flat(messages)| ==> !EarlyAt(n, n, Flat(messages), k)
    ensures Tame(n, Flat(messages), n - 1)
    decreases |messages|
  {
    hide After, EarlyAt, Inv;
    if messages == [] {
      NothingYet(n, n);
      NothingYet(n, n - 1);
      InitialHolds(n, n - 1);
    } else {
      var front, last := messages[..|messages| - 1], messages[|messages| - 1];
      var all := Flat(messages);
      assert all[..|Flat(front)|] == Flat(front);
      PrefixIsRun(n, n, all, |Flat(front)|);
      forall k | 0 <= k < |Flat(front)| ensures !EarlyAt(n, n, Flat(front), k) {
        assert EarlyAt(n, n, all[..|Flat(front)|], k) == EarlyAt(n, n, all, k);
      }
      TameMessages(n, front);
      EmptyWindowMeansDelivered(n, n - 1, After(n, n, Flat(front)));
      TameMessage(n, Flat(front), last);
    }
  }

  /** The beginning of a run of short messages is one as well. */
  lemma {:induction false} Beginning(n: nat, messages: seq<seq<Step>>, k: nat) returns (some: seq<seq<Step>>)
    requires n > 0 && ShortMessages(n, messages) && k <= |Flat(messages)|
    ensures ShortMessages(n, some) && Flat(some) == Flat(messages)[..k]
    decreases |messages|
  {
    hide After;
    if messages == [] {
      return [];
    }
    var front, last := messages[..|messages| - 1], messages[|messages| - 1];
    if k <= |Flat(front)| {
      some := Beginning(n, front, k);
      assert Flat(messages)[..k] == Flat(front)[..k];
    } else {
      some := front + [last[..k - |Flat(front)|]];
      assert some[..|some| - 1] == front;
      FewerAdds(last, k - |Flat(front)|);
    }
  }

  lemma {:induction false} FewerAdds(steps: seq<Step>, k: nat)
    requires k <= |steps|
    ensures CountAdds(steps[..k]) <= CountAdds(steps)
    decreases |steps|
  {
    if k == |steps| {
      assert steps[..k] == steps;
    } else {
      FewerAdds(steps[..|steps| - 1], k);
      assert steps[..|steps| - 1][..k] == steps[..k];
    }
  }

  /**
   * Under the sender's own bound, a run of short messages is safe throughout if and only if no
   * acknowledgement is taken before the receiver has accepted its first byte.
   */
  lemma ShortMessagesSafeExactly(n: nat, messages: seq<seq<Step>>)
    requires n >= 2 && ShortMessages(n, messages) && IsRun(n, n, Flat(messages))
    ensures var steps := Flat(messages);
            (forall k :: 0 <= k <= |steps| ==> Safe(After(n, n, steps[..k]))) <==>
            (forall k :: 0 <= k < |steps| ==> !EarlyAt(n, n, steps, k))
  {
    hide Apply, Inv, Enabled, Initial, After, Safe;
    var steps := Flat(messages);
    if forall k :: 0 <= k < |steps| ==> !EarlyAt(n, n, steps, k) {
      forall k | 0 <= k <= |steps| ensures Safe(After(n, n, steps[..k])) {
        TamePart(n, messages, k);
        InvWindow(n, n - 1, After(n, n, steps[..k]));
      }
    } else {
      var k := FirstEarly(n, n, steps);
      TamePart(n, messages, k);
      EarlyStepBreaks(n, steps, k);
    }
  }

  lemma TamePart(n: nat, messages: seq<seq<Step>>, k: nat)
    requires n >= 2 && ShortMessages(n, messages) && IsRun(n, n, Flat(messages)) && k <= |Flat(messages)|
    requires forall j :: 0 <= j < k ==> !EarlyAt(n, n, Flat(messages), j)
    ensures Tame(n, Flat(messages)[..k], n - 1)
  {
    hide Tame, EarlyAt;
    var some := Beginning(n, messages, k);
    PrefixIsRun(n, n, Flat(messages), k);
    TameMessages(n, some);
  }

  lemma EarlyStepBreaks(n: nat, steps: seq<Step>, k: nat)
    requires n >= 2 && k < |steps| && IsRun(n, n, steps) && EarlyAt(n, n, steps, k) && Tame(n, steps[..k], n - 1)
    ensures !Safe(After(n, n, steps[..k + 1]))
  {
    hide Apply, Inv, Initial, Safe;
    var s := After(n, n, steps[..k]);
    InvWindow(n, n - 1, s);
    EarlyAckHarms(n, n - 1, s);
    SameStep(n, s, TakeAck);
    assert steps[..k + 1][..k] == steps[..k] && Enabled(n, s, steps[k]);
  }
}
